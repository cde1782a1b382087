/** The chunk partition of src/main.rs:69-76: `threads` contiguous byte ranges
    of the entry body, `chunk_size = len / threads` bytes each, the last one
    running to the end of the body. */
module Partition {
  import opened Bytes
  import opened Slices

  function ChunkSize(len: nat, threads: nat): nat
    requires threads >= 1
  {
    len / threads
  }

  /** `start = i * chunk_size` */
  function ChunkStart(len: nat, threads: nat, i: nat): nat
    requires threads >= 1 && i < threads
  {
    i * ChunkSize(len, threads)
  }

  /** `end = if i == num_threads - 1 { body.len() } else { start + chunk_size }` */
  function ChunkEnd(len: nat, threads: nat, i: nat): (end: nat)
    requires threads >= 1 && i < threads
    ensures ChunkStart(len, threads, i) <= end <= len
  {
    FullChunkFits(len, threads, i);
    if i == threads - 1 then len else ChunkStart(len, threads, i) + ChunkSize(len, threads)
  }

  /** The ranges are well formed, start at 0, end at `len`, abut one another
      (so they are pairwise disjoint and leave no gap), every range but the
      last is exactly `chunk_size` long, and the last is at least that long. */
  lemma {:induction false} ChunkLayout(len: nat, threads: nat, i: nat)
    requires threads >= 1 && i < threads
    ensures ChunkStart(len, threads, i) <= ChunkEnd(len, threads, i) <= len
    ensures i == 0 ==> ChunkStart(len, threads, i) == 0
    ensures i == threads - 1 ==> ChunkEnd(len, threads, i) == len
    ensures i + 1 < threads ==> ChunkEnd(len, threads, i) == ChunkStart(len, threads, i + 1)
    ensures i + 1 < threads ==> ChunkEnd(len, threads, i) - ChunkStart(len, threads, i) == ChunkSize(len, threads)
    ensures ChunkEnd(len, threads, i) - ChunkStart(len, threads, i) >= ChunkSize(len, threads)
  {
    FullChunkFits(len, threads, i);
  }

  /** Even the last range has room for a full `chunk_size`. */
  lemma FullChunkFits(len: nat, threads: nat, i: nat)
    requires threads >= 1 && i < threads
    ensures ChunkStart(len, threads, i) + ChunkSize(len, threads) <= len
  {
    var size := ChunkSize(len, threads);
    assert threads * size <= len by {
      assert len == threads * size + len % threads;
    }
    assert (i + 1) * size <= threads * size by {
      MultiplyMonotone(i + 1, threads, size);
    }
    assert (i + 1) * size == i * size + size;
  }

  /** Ranges that come earlier end no later than later ones start. */
  lemma {:induction false} ChunksDisjoint(len: nat, threads: nat, i: nat, j: nat)
    requires threads >= 1 && i < j < threads
    ensures ChunkEnd(len, threads, i) <= ChunkStart(len, threads, j)
  {
    ChunkLayout(len, threads, i);
    var size := ChunkSize(len, threads);
    MultiplyMonotone(i + 1, j, size);
    assert (i + 1) * size == i * size + size;
  }

  lemma MultiplyMonotone(a: nat, b: nat, c: nat)
    requires a <= b
    ensures a * c <= b * c
  {
  }

  /** `body[start..end]` for task `i`. */
  function Chunk(body: seq<Byte>, threads: nat, i: nat): seq<Byte>
    requires threads >= 1 && i < threads
  {
    body[ChunkStart(|body|, threads, i)..ChunkEnd(|body|, threads, i)]
  }

  /** The partition loop: cuts `body` into `threads` chunks, whose
      concatenation is exactly `body`. */
  method SplitChunks(body: seq<Byte>, threads: nat) returns (chunks: seq<seq<Byte>>)
    requires threads >= 1
    ensures |chunks| == threads
    ensures forall i :: 0 <= i < threads ==> chunks[i] == Chunk(body, threads, i)
    ensures Concat(chunks) == body
  {
    var chunkSize := |body| / threads;
    chunks := [];
    for i := 0 to threads
      invariant |chunks| == i
      invariant forall k :: 0 <= k < i ==> chunks[k] == Chunk(body, threads, k)
      invariant i < threads ==> Concat(chunks) == body[..ChunkStart(|body|, threads, i)]
      invariant i == threads ==> Concat(chunks) == body
    {
      ChunkLayout(|body|, threads, i);
      var start := i * chunkSize;
      var end := if i == threads - 1 then |body| else start + chunkSize;
      assert start == ChunkStart(|body|, threads, i) && end == ChunkEnd(|body|, threads, i);
      var chunk := body[start..end];
      assert chunk == Chunk(body, threads, i);
      var next := chunks + [chunk];
      ConcatSnoc(chunks, chunk);
      PrefixThenSlice(body, start, end);
      chunks := next;
    }
  }
}
