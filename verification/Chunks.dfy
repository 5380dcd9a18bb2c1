/** How a transfer is cut into requests, and how many of them are kept in flight. */
module Chunks {
  import opened Storage

  const SMB_PROTOCOL_OVERHEAD: nat := 1024
  const MAX_PIPELINE_DEPTH: nat := 50
  const MAX_DATA_SIZE: nat := 130048
  const MAX_SMALL_DATA_SIZE: nat := 65520

  /** What the server's negotiate response allows. */
  datatype Negotiated = Negotiated(maxMpxCount: nat, maxBufferSize: nat, largeReadX: bool, largeWriteX: bool) {
    function MaxReadChunk(): (size: nat)
      ensures 0 < size <= 65520 && (size < 65520 ==> !largeReadX && size + 1024 == maxBufferSize)
      ensures !largeReadX && maxBufferSize > 1024 ==> size + 1024 <= maxBufferSize
    {
      if largeReadX then MAX_SMALL_DATA_SIZE else ClampToNegotiatedBuffer(MAX_SMALL_DATA_SIZE, maxBufferSize)
    }

    function MaxWriteChunk(): (size: nat)
      ensures 0 < size && (largeWriteX ==> size == 130048)
      ensures !largeWriteX ==> size <= 65520 && (size < 65520 ==> size + 1024 == maxBufferSize)
      ensures !largeWriteX && maxBufferSize > 1024 ==> size + 1024 <= maxBufferSize
    {
      if largeWriteX then MAX_DATA_SIZE else ClampToNegotiatedBuffer(MAX_SMALL_DATA_SIZE, maxBufferSize)
    }
  }

  /** A chunk never exceeds its ceiling, and never the negotiated buffer when that leaves room for any data at all; it
      is the largest that does not. */
  function ClampToNegotiatedBuffer(ceiling: nat, maxBufferSize: nat): (size: nat)
    ensures size <= ceiling && (ceiling > 0 ==> size > 0)
    ensures maxBufferSize > 1024 ==> size + 1024 <= maxBufferSize
    ensures size < ceiling ==> size + 1024 == maxBufferSize
  {
    if maxBufferSize == 0 then ceiling
    else
      var fits := maxBufferSize - SMB_PROTOCOL_OVERHEAD;
      if 0 < fits < ceiling then fits else ceiling
  }

  /** The depth to pipeline to, and whether to pipeline at all: the two answers never disagree. */
  function PipelineDepth(maxMpxCount: nat): (r: (nat, bool))
    ensures 1 <= r.0 <= 50 && (r.1 <==> r.0 > 1)
    ensures maxMpxCount >= 1 ==> r.0 <= maxMpxCount
    ensures r.0 < maxMpxCount ==> r.0 == 50
  {
    if maxMpxCount <= 1 then (1, false)
    else if maxMpxCount > MAX_PIPELINE_DEPTH then (MAX_PIPELINE_DEPTH, true)
    else (maxMpxCount, true)
  }

  datatype Chunk = Chunk(bufOffset: nat, size: nat)

  function NumChunks(total: nat, max: nat): nat
    requires max > 0
  {
    (total + max - 1) / max
  }

  /** How many bytes the first `i` chunks cover. */
  function Covered(total: nat, max: nat, i: nat): nat {
    Min(total, i * max)
  }

  lemma NumChunksCovers(total: nat, max: nat)
    requires max > 0
    ensures Covered(total, max, NumChunks(total, max)) == total
    ensures forall i: nat :: i < NumChunks(total, max) ==> i * max < total && Covered(total, max, i) == i * max
    ensures total > 0 ==> NumChunks(total, max) > 0
  {
    var n := NumChunks(total, max);
    assert n * max <= total + max - 1 < n * max + max;
    forall i: nat | i < n ensures i * max < total {
      assert i * max <= (n - 1) * max == n * max - max;
    }
  }

  /** The chunks, in order, leave no gap and share no byte: each begins where those before it end. */
  ghost predicate Partition(chunks: seq<Chunk>, total: nat, max: nat) {
    forall i :: 0 <= i < |chunks| ==> IsChunk(chunks[i], total, max, i)
  }

  ghost predicate IsChunk(chunk: Chunk, total: nat, max: nat, i: nat) {
    && chunk.bufOffset == Covered(total, max, i)
    && 0 < chunk.size <= max
    && chunk.bufOffset + chunk.size == Covered(total, max, i + 1) <= total
  }

  /** Cuts `total` bytes into chunks of at most `max`. */
  method Cut(total: nat, max: nat) returns (chunks: seq<Chunk>)
    requires max > 0
    ensures |chunks| == NumChunks(total, max) && Partition(chunks, total, max)
    ensures Covered(total, max, |chunks|) == total && (total > 0 ==> |chunks| > 0)
  {
    NumChunksCovers(total, max);
    var numChunks := (total + max - 1) / max;
    chunks := [];
    var i := 0;
    while i < numChunks
      invariant 0 <= i <= numChunks && |chunks| == i && Partition(chunks, total, max)
    {
      var chunkOffset := i * max;
      var chunkSize := max;
      assert (i + 1) * max == chunkOffset + max;
      if chunkOffset + chunkSize > total {
        chunkSize := total - chunkOffset;
      }
      chunks := chunks + [Chunk(chunkOffset, chunkSize)];
      i := i + 1;
    }
  }
}
