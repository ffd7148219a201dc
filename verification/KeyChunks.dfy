/** Splitting the 256-bit space of hashed storage keys into chunks.

    The ranges are computed as the node computes them, on 256-bit words: the stride is a
    rounded-up quotient that does not fit the word when there is a single chunk, and the end
    of the last range saturates. */
module KeyChunks {
  import opened Arithmetic

  const U64_MAX: nat := 0xFFFF_FFFF_FFFF_FFFF
  const U256_MAX: nat := 0xFFFF_FFFF_FFFF_FFFF_FFFF_FFFF_FFFF_FFFF_FFFF_FFFF_FFFF_FFFF_FFFF_FFFF_FFFF_FFFF

  /** An inclusive range of hashed keys. */
  datatype KeyRange = KeyRange(start: nat, end: nat)

  predicate Contains(range: KeyRange, key: nat) {
    range.start <= key <= range.end
  }

  /** The stride added by one to the rounded-down quotient, unless that quotient is already the
      largest word. */
  function Stride(chunkCount: nat): (stride: nat)
    requires 0 < chunkCount
  {
    var quotient := U256_MAX / chunkCount;
    if quotient < U256_MAX then quotient + 1 else quotient
  }

  function StrideMinusOne(chunkCount: nat): (last: nat)
    requires 0 < chunkCount
  {
    U256_MAX / chunkCount
  }

  /** The multiplication that gives the start of a range panics when it leaves the word; see
      StartFitsWord for why it never does. */
  function UniformHashedKeysChunk(chunkId: nat, chunkCount: nat): KeyRange
    requires chunkId < chunkCount <= U64_MAX
  {
    var start := Stride(chunkCount) * chunkId;
    var end := StrideMinusOne(chunkCount) + start;
    KeyRange(start, if end > U256_MAX then U256_MAX else end)
  }

  lemma QuotientBounds(chunkCount: nat)
    requires 2 <= chunkCount <= U64_MAX
    ensures Stride(chunkCount) == U256_MAX / chunkCount + 1
    ensures chunkCount < Stride(chunkCount)
    ensures (Stride(chunkCount) - 1) * chunkCount <= U256_MAX < Stride(chunkCount) * chunkCount
  {
    var q := U256_MAX / chunkCount;
    assert U256_MAX == q * chunkCount + U256_MAX % chunkCount;
    assert (q + 1) * chunkCount == q * chunkCount + chunkCount;
    MulMonotone(chunkCount, U64_MAX, U64_MAX);
    if q < U64_MAX {
      MulMonotone(q + 1, U64_MAX, chunkCount);
      assert false;
    }
    assert q < U256_MAX;
  }

  /** The start of every range is a 256-bit word, so the multiplication never overflows. */
  lemma StartFitsWord(chunkId: nat, chunkCount: nat)
    requires chunkId < chunkCount <= U64_MAX
    ensures UniformHashedKeysChunk(chunkId, chunkCount).start <= U256_MAX
    ensures UniformHashedKeysChunk(chunkId, chunkCount).start <= UniformHashedKeysChunk(chunkId, chunkCount).end
  {
    if chunkCount > 1 {
      QuotientBounds(chunkCount);
      var stride := Stride(chunkCount);
      MulMonotone(chunkId, chunkCount - 1, stride);
      assert stride * (chunkCount - 1) == (stride - 1) * chunkCount + chunkCount - stride;
    }
  }

  /** The chunk that holds a key. */
  function ChunkOf(key: nat, chunkCount: nat): nat
    requires key <= U256_MAX && 0 < chunkCount
  {
    if chunkCount == 1 then 0 else key / Stride(chunkCount)
  }

  lemma DivisionIsUnique(x: nat, d: nat, q: nat)
    requires 0 < d
    ensures x / d == q <==> d * q <= x < d * q + d
  {
    var p := x / d;
    assert x == d * p + x % d;
    if q < p {
      MulMonotone(q + 1, p, d);
    } else if q > p {
      MulMonotone(p + 1, q, d);
    }
  }

  /** One range holds exactly the keys whose quotient by the stride is its index. */
  lemma ContainsIffQuotient(key: nat, chunkId: nat, chunkCount: nat)
    requires key <= U256_MAX && chunkId < chunkCount && 2 <= chunkCount <= U64_MAX
    ensures 0 < Stride(chunkCount)
    ensures Contains(UniformHashedKeysChunk(chunkId, chunkCount), key) <==> chunkId == key / Stride(chunkCount)
  {
    QuotientBounds(chunkCount);
    DivisionIsUnique(key, Stride(chunkCount), chunkId);
  }

  lemma QuotientBelowCount(key: nat, stride: nat, chunkCount: nat)
    requires 0 < stride && key < stride * chunkCount
    ensures key / stride < chunkCount
  {
    DivisionIsUnique(key, stride, key / stride);
    if key / stride >= chunkCount {
      MulMonotone(chunkCount, key / stride, stride);
      assert false;
    }
  }

  /** The ranges partition the key space: every key lies in exactly one of them. */
  lemma ChunksPartitionKeys(key: nat, chunkCount: nat)
    requires key <= U256_MAX && 0 < chunkCount <= U64_MAX
    ensures ChunkOf(key, chunkCount) < chunkCount
    ensures forall chunkId :: 0 <= chunkId < chunkCount ==>
      (Contains(UniformHashedKeysChunk(chunkId, chunkCount), key) <==> chunkId == ChunkOf(key, chunkCount))
  {
    if chunkCount > 1 {
      QuotientBounds(chunkCount);
      QuotientBelowCount(key, Stride(chunkCount), chunkCount);
      forall chunkId | 0 <= chunkId < chunkCount
        ensures Contains(UniformHashedKeysChunk(chunkId, chunkCount), key) <==> chunkId == ChunkOf(key, chunkCount)
      {
        ContainsIffQuotient(key, chunkId, chunkCount);
      }
    }
  }

  /** The ranges run from the first key to the last one without gaps, all but the last have the
      same size, and the last is smaller by less than the number of chunks. */
  lemma ChunksAreAdjacentAndEven(chunkId: nat, chunkCount: nat)
    requires chunkId < chunkCount <= U64_MAX
    ensures chunkId == 0 ==> UniformHashedKeysChunk(chunkId, chunkCount).start == 0
    ensures chunkId == chunkCount - 1 ==> UniformHashedKeysChunk(chunkId, chunkCount).end == U256_MAX
    ensures chunkId + 1 < chunkCount ==>
      UniformHashedKeysChunk(chunkId, chunkCount).end + 1 == UniformHashedKeysChunk(chunkId + 1, chunkCount).start
    ensures
      var range := UniformHashedKeysChunk(chunkId, chunkCount);
      var largest := UniformHashedKeysChunk(0, chunkCount);
      0 <= (largest.end - largest.start) - (range.end - range.start) < chunkCount
    ensures chunkId + 1 < chunkCount ==>
      var range := UniformHashedKeysChunk(chunkId, chunkCount);
      range.end - range.start == StrideMinusOne(chunkCount)
  {
    if chunkCount > 1 {
      QuotientBounds(chunkCount);
      var stride := Stride(chunkCount);
      StartFitsWord(chunkId, chunkCount);
      assert stride * (chunkCount - 1) == stride * chunkCount - stride;
      if chunkId + 1 < chunkCount {
        StartFitsWord(chunkId + 1, chunkCount);
        assert stride * (chunkId + 1) == stride * chunkId + stride;
      } else {
        assert (stride - 1) * chunkCount == stride * chunkCount - chunkCount;
      }
    }
  }
}
