/** EIP-4844 blobs of a batch: pubdata is cut into blobs of one size, the last one padded with
    zeros, and at most sixteen of them fit. */
module BlobCodec {
  import opened Arithmetic
  import opened Wrappers

  newtype byte = x: int | 0 <= x < 256

  type Blob = seq<byte>

  const BLOB_CHUNK_SIZE: nat := 31
  const ELEMENTS_PER_4844_BLOCK: nat := 4096
  const MAX_4844_BLOBS_PER_BLOCK: nat := 16
  const EIP_4844_BLOB_SIZE: nat := BLOB_CHUNK_SIZE * ELEMENTS_PER_4844_BLOCK

  /** The fixed array of blobs; an absent blob is None. */
  type Eip4844Blobs = blobs: seq<Option<Blob>> | |blobs| == MAX_4844_BLOBS_PER_BLOCK
    witness seq(MAX_4844_BLOBS_PER_BLOCK, _ => None)

  function EmptyBlobs(): Eip4844Blobs {
    seq(MAX_4844_BLOBS_PER_BLOCK, _ => None)
  }

  function Zeros(n: nat): seq<byte> {
    seq(n, _ => 0 as byte)
  }

  /** Consecutive pieces of the given size; the last one may be shorter. */
  function Chunks(data: seq<byte>, size: nat): seq<Blob>
    requires 0 < size
  {
    if data == [] then []
    else if |data| <= size then [data]
    else [data[..size]] + Chunks(data[size..], size)
  }

  function Resize(blob: Blob, size: nat): Blob {
    if |blob| < size then blob + Zeros(size - |blob|) else blob[..size]
  }

  function ResizeLast(chunks: seq<Blob>, size: nat): seq<Blob>
    requires chunks != []
  {
    chunks[|chunks| - 1 := Resize(chunks[|chunks| - 1], size)]
  }

  function ToSlots(chunks: seq<Blob>): Eip4844Blobs
    requires |chunks| <= MAX_4844_BLOBS_PER_BLOCK
  {
    seq(MAX_4844_BLOBS_PER_BLOCK, i requires 0 <= i => if i < |chunks| then Some(chunks[i]) else None)
  }

  function Flatten(blobs: seq<Option<Blob>>): seq<byte> {
    if blobs == [] then []
    else (if blobs[0].Some? then blobs[0].value else []) + Flatten(blobs[1..])
  }

  function Encode(blobs: Eip4844Blobs): seq<byte> {
    Flatten(blobs)
  }

  /** The value that decoding gives; the error carries the number of blobs there would be. */
  function Decoded(data: seq<byte>): Result<Eip4844Blobs, nat> {
    if data == [] then Ok(EmptyBlobs())
    else
      var chunks := Chunks(data, EIP_4844_BLOB_SIZE);
      if chunks == [] || |chunks| > MAX_4844_BLOBS_PER_BLOCK then Err(|chunks|)
      else Ok(ToSlots(ResizeLast(chunks, EIP_4844_BLOB_SIZE)))
  }

  /** Decodes by filling a fixed array slot by slot. */
  method Decode(data: seq<byte>) returns (result: Result<Eip4844Blobs, nat>)
    ensures result == Decoded(data)
  {
    if data == [] {
      return Ok(EmptyBlobs());
    }
    var chunks := Chunks(data, EIP_4844_BLOB_SIZE);
    ChunksAreFull(data, EIP_4844_BLOB_SIZE);
    chunks := ResizeLast(chunks, EIP_4844_BLOB_SIZE);
    if |chunks| > MAX_4844_BLOBS_PER_BLOCK {
      return Err(|chunks|);
    }
    var blobs := new Option<Blob>[MAX_4844_BLOBS_PER_BLOCK](_ => None);
    for i := 0 to |chunks|
      invariant forall j :: 0 <= j < blobs.Length ==> blobs[j] == if j < i then Some(chunks[j]) else None
    {
      blobs[i] := Some(chunks[i]);
    }
    assert blobs[..] == ToSlots(chunks);
    return Ok(blobs[..]);
  }

  // ---------------------------------------------------------------------------------------------
  // Chunks and padding
  // ---------------------------------------------------------------------------------------------

  lemma ResizeFullLast(chunks: seq<Blob>, size: nat)
    requires chunks != [] && |chunks[|chunks| - 1]| == size
    ensures ResizeLast(chunks, size) == chunks
  {
    assert Resize(chunks[|chunks| - 1], size) == chunks[|chunks| - 1];
  }

  /** All pieces but the last are full, the last is not empty, and there are as many as needed. */
  lemma {:induction false} ChunksAreFull(data: seq<byte>, size: nat)
    requires 0 < size && data != []
    ensures
      var chunks := Chunks(data, size);
      && chunks != []
      && (forall i :: 0 <= i < |chunks| - 1 ==> |chunks[i]| == size)
      && 0 < |chunks[|chunks| - 1]| <= size
      && |data| == (|chunks| - 1) * size + |chunks[|chunks| - 1]|
  {
    if |data| > size {
      var rest := Chunks(data[size..], size);
      ChunksAreFull(data[size..], size);
      var chunks := [data[..size]] + rest;
      assert Chunks(data, size) == chunks;
      assert forall i :: 0 < i < |chunks| ==> chunks[i] == rest[i - 1];
      OneMore(|rest| - 1, size);
    }
  }

  /** The payload followed by zeros up to the given length. */
  function Padded(data: seq<byte>, length: nat): seq<byte> {
    if |data| < length then data + Zeros(length - |data|) else data
  }

  /** The length of the padded payload: a whole number of blobs. */
  function PaddedLength(data: seq<byte>, size: nat): nat
    requires 0 < size
  {
    |Chunks(data, size)| * size
  }

  function Pad(data: seq<byte>): seq<byte> {
    Padded(data, PaddedLength(data, EIP_4844_BLOB_SIZE))
  }

  /** The padding is the shortest that reaches a whole number of blobs. */
  lemma PaddingIsMinimal(data: seq<byte>, size: nat, blobs: nat)
    requires 0 < size && |data| <= blobs * size
    ensures |data| <= PaddedLength(data, size) < |data| + size
    ensures PaddedLength(data, size) <= blobs * size
  {
    if data != [] {
      ChunksAreFull(data, size);
      var count := |Chunks(data, size)|;
      OneMore(count - 1, size);
      if blobs < count {
        MulMonotone(blobs, count - 1, size);
        assert false;
      }
    }
  }

  function Concat(chunks: seq<Blob>): seq<byte> {
    if chunks == [] then [] else chunks[0] + Concat(chunks[1..])
  }

  lemma ConsPad(head: Blob, data: seq<byte>, length: nat)
    requires |data| <= length
    ensures head + Padded(data, length) == Padded(head + data, |head| + length)
  {
  }

  /** Put together again, the pieces are the padded payload, and the padded payload is cut into the
      same pieces. */
  predicate PadsWell(data: seq<byte>, size: nat)
    requires 0 < size && data != []
  {
    var chunks := Chunks(data, size);
    && chunks != []
    && Concat(ResizeLast(chunks, size)) == Padded(data, |chunks| * size)
    && Chunks(Padded(data, |chunks| * size), size) == ResizeLast(chunks, size)
  }

  lemma {:induction false} OnePiecePadsWell(data: seq<byte>, size: nat)
    requires 0 < |data| <= size
    ensures PadsWell(data, size)
  {
    var padded := Padded(data, size);
    assert Resize(data, size) == padded;
    assert ResizeLast(Chunks(data, size), size) == [padded];
    assert [padded][1..] == [];
  }

  lemma {:induction false} MorePiecesPadWell(data: seq<byte>, size: nat)
    requires 0 < size < |data| && PadsWell(data[size..], size)
    ensures PadsWell(data, size)
  {
    var head, tail := data[..size], data[size..];
    var rest := Chunks(tail, size);
    PaddingIsMinimalFor(tail, size);
    var last := ResizeLast(rest, size);
    assert ResizeLast(Chunks(data, size), size) == [head] + last;
    assert ([head] + last)[1..] == last;
    ConsPad(head, tail, |rest| * size);
    assert head + tail == data;
    OneMore(|rest|, size);
    var padded := Padded(data, (|rest| + 1) * size);
    assert padded[..size] == head && padded[size..] == Padded(tail, |rest| * size);
  }

  lemma {:induction false} ChunksOfPadded(data: seq<byte>, size: nat)
    requires 0 < size && data != []
    ensures PadsWell(data, size)
  {
    if |data| <= size {
      OnePiecePadsWell(data, size);
    } else {
      ChunksOfPadded(data[size..], size);
      MorePiecesPadWell(data, size);
    }
  }

  lemma PaddingIsMinimalFor(data: seq<byte>, size: nat)
    requires 0 < size && data != []
    ensures 0 < |data| <= |Chunks(data, size)| * size
  {
    ChunksAreFull(data, size);
    OneMore(|Chunks(data, size)| - 1, size);
  }

  // ---------------------------------------------------------------------------------------------
  // Slots
  // ---------------------------------------------------------------------------------------------

  lemma {:induction false} FlattenNone(blobs: seq<Option<Blob>>)
    requires forall i :: 0 <= i < |blobs| ==> blobs[i].None?
    ensures Flatten(blobs) == []
  {
    if blobs != [] {
      FlattenNone(blobs[1..]);
    }
  }

  lemma {:induction false} FlattenSlots(blobs: seq<Option<Blob>>, chunks: seq<Blob>)
    requires |chunks| <= |blobs|
    requires forall i :: 0 <= i < |blobs| ==> blobs[i] == if i < |chunks| then Some(chunks[i]) else None
    ensures Flatten(blobs) == Concat(chunks)
  {
    if chunks == [] {
      FlattenNone(blobs);
    } else {
      FlattenSlots(blobs[1..], chunks[1..]);
    }
  }

  // ---------------------------------------------------------------------------------------------
  // The codec
  // ---------------------------------------------------------------------------------------------

  /** Decoding fails exactly on more data than sixteen blobs of 31 * 4096 bytes hold, with the number
      of blobs that the data would take. */
  lemma DecodeFailsExactlyAboveLimit(data: seq<byte>)
    ensures Decoded(data).Err? <==> |data| > 2_031_616
    ensures Decoded(data).Err? ==> 126_976 * (Decoded(data).error - 1) < |data| <= 126_976 * Decoded(data).error
  {
    if data != [] {
      ChunksAreFull(data, EIP_4844_BLOB_SIZE);
    }
  }

  /** Encoding what was decoded gives the payload back, with its padding. */
  lemma EncodeAfterDecode(data: seq<byte>)
    requires Decoded(data).Ok?
    ensures Encode(Decoded(data).value) == Pad(data)
  {
    if data == [] {
      FlattenNone(EmptyBlobs());
    } else {
      var chunks := ResizeLast(Chunks(data, EIP_4844_BLOB_SIZE), EIP_4844_BLOB_SIZE);
      ChunksOfPadded(data, EIP_4844_BLOB_SIZE);
      FlattenSlots(ToSlots(chunks), chunks);
    }
  }

  /** Encoding what was decoded gives the payload and then nothing but zeros, as few as make the
      length a multiple of the blob size. */
  lemma EncodedIsPayloadAndZeros(data: seq<byte>, blobs: nat)
    requires Decoded(data).Ok?
    ensures
      var encoded := Encode(Decoded(data).value);
      && data <= encoded
      && (forall i :: |data| <= i < |encoded| ==> encoded[i] == 0)
      && |encoded| % 126_976 == 0
      && (|data| <= blobs * 126_976 ==> |encoded| <= blobs * 126_976)
  {
    EncodeAfterDecode(data);
    var count := |Chunks(data, EIP_4844_BLOB_SIZE)|;
    if data != [] {
      PaddingIsMinimalFor(data, EIP_4844_BLOB_SIZE);
    }
    if |data| <= blobs * EIP_4844_BLOB_SIZE {
      PaddingIsMinimal(data, EIP_4844_BLOB_SIZE, blobs);
    }
  }

  /** Padding does not change what a payload decodes to. */
  lemma DecodeOfPadded(data: seq<byte>)
    ensures Decoded(Pad(data)) == Decoded(data)
  {
    if data != [] {
      var chunks := Chunks(data, EIP_4844_BLOB_SIZE);
      ChunksOfPadded(data, EIP_4844_BLOB_SIZE);
      PaddingIsMinimalFor(data, EIP_4844_BLOB_SIZE);
      ChunksAreFull(data, EIP_4844_BLOB_SIZE);
      var padded := ResizeLast(chunks, EIP_4844_BLOB_SIZE);
      ResizeFullLast(padded, EIP_4844_BLOB_SIZE);
    }
  }

  /** Two payloads that fit decode alike exactly when they are equal after padding. */
  lemma DecodeAlikeExactlyWhenPaddedAlike(data1: seq<byte>, data2: seq<byte>)
    requires Decoded(data1).Ok? && Decoded(data2).Ok?
    ensures Decoded(data1) == Decoded(data2) <==> Pad(data1) == Pad(data2)
  {
    EncodeAfterDecode(data1);
    EncodeAfterDecode(data2);
    DecodeOfPadded(data1);
    DecodeOfPadded(data2);
  }

  /** The values that the constructors are meant to enforce: full blobs first, then none. */
  ghost predicate IsCanonical(blobs: Eip4844Blobs) {
    exists count :: 0 <= count <= MAX_4844_BLOBS_PER_BLOCK && FilledUpTo(blobs, count)
  }

  predicate FilledUpTo(blobs: Eip4844Blobs, count: nat)
    requires count <= MAX_4844_BLOBS_PER_BLOCK
  {
    && (forall i :: 0 <= i < count ==> blobs[i].Some? && |blobs[i].value| == EIP_4844_BLOB_SIZE)
    && (forall i :: count <= i < |blobs| ==> blobs[i].None?)
  }

  lemma DecodedIsCanonical(data: seq<byte>)
    requires Decoded(data).Ok?
    ensures IsCanonical(Decoded(data).value) && IsCanonical(EmptyBlobs())
  {
    assert FilledUpTo(EmptyBlobs(), 0);
    if data != [] {
      ChunksAreFull(data, EIP_4844_BLOB_SIZE);
      assert FilledUpTo(Decoded(data).value, |Chunks(data, EIP_4844_BLOB_SIZE)|);
    }
  }

  lemma {:induction false} ChunksOfConcat(chunks: seq<Blob>, size: nat)
    requires 0 < size && forall i :: 0 <= i < |chunks| ==> |chunks[i]| == size
    ensures Chunks(Concat(chunks), size) == chunks
    ensures chunks == [] <==> Concat(chunks) == []
  {
    if chunks != [] {
      ChunksOfConcat(chunks[1..], size);
      var data := Concat(chunks);
      assert data[..size] == chunks[0] && data[size..] == Concat(chunks[1..]);
      if |data| <= size {
        assert Concat(chunks[1..]) == [];
        assert data == chunks[0] && chunks == [chunks[0]];
      } else {
        assert chunks == [chunks[0]] + chunks[1..];
      }
    }
  }

  lemma CanonicalRoundTrip(blobs: Eip4844Blobs, count: nat)
    requires count <= MAX_4844_BLOBS_PER_BLOCK && FilledUpTo(blobs, count)
    ensures Decoded(Encode(blobs)) == Ok(blobs)
  {
    var chunks: seq<Blob> := seq(count, i requires 0 <= i < count => blobs[i].value);
    FlattenSlots(blobs, chunks);
    ChunksOfConcat(chunks, EIP_4844_BLOB_SIZE);
    if count == 0 {
      assert EmptyBlobs() == blobs;
    } else {
      ResizeFullLast(chunks, EIP_4844_BLOB_SIZE);
      assert ToSlots(chunks) == blobs;
    }
  }

  /** Decoding what was encoded is the identity exactly on canonical values, that is, on every
      value that decoding or the empty constructor builds. */
  lemma DecodeAfterEncode(blobs: Eip4844Blobs)
    ensures Decoded(Encode(blobs)) == Ok(blobs) <==> IsCanonical(blobs)
  {
    if IsCanonical(blobs) {
      var count :| 0 <= count <= MAX_4844_BLOBS_PER_BLOCK && FilledUpTo(blobs, count);
      CanonicalRoundTrip(blobs, count);
    }
    if Decoded(Encode(blobs)) == Ok(blobs) {
      DecodedIsCanonical(Encode(blobs));
    }
  }
}
