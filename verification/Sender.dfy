/**
 The sending side (`transfer.rs`): one pass that encrypts every chunk for its leaf and caches
 what fits a budget, and a second that ships the requested chunks, always one record ahead.
 */
module Sender {
  import opened Octets
  import opened Merkle
  import opened Geometry
  import opened Chunks
  import opened ChunkRecord
  import opened Rle
  import opened Scheduler
  import PowersOfTwo

  // --- The ciphertext cache ---

  function CachedBytes(entries: seq<Option<Bytes>>): nat {
    if entries == [] then 0
    else CachedBytes(entries[..|entries| - 1]) + EntryBytes(entries[|entries| - 1])
  }

  function EntryBytes(e: Option<Bytes>): nat {
    if e.None? then 0 else |e.value|
  }

  lemma {:induction false} CachedUpdate(entries: seq<Option<Bytes>>, i: nat, e: Option<Bytes>)
    requires i < |entries|
    ensures CachedBytes(entries[i := e]) == CachedBytes(entries) - EntryBytes(entries[i]) + EntryBytes(e)
    decreases |entries|
  {
    var m := |entries| - 1;
    if i == m {
      assert entries[i := e][..m] == entries[..m];
    } else {
      CachedUpdate(entries[..m], i, e);
      assert entries[i := e][..m] == entries[..m][i := e];
    }
  }

  /** Bounded: what is held and what remains never exceed the budget. */
  class CiphertextCache {
    ghost const budget: nat
    var entries: seq<Option<Bytes>>
    var remaining: nat

    ghost predicate Valid()
      reads this
    {
      CachedBytes(entries) + remaining <= budget
    }

    constructor (chunkCount: nat, budget: nat)
      ensures Valid() && this.budget == budget && remaining == budget
      ensures entries == seq(chunkCount, _ => None)
    {
      this.budget := budget;
      entries := seq(chunkCount, _ => None);
      remaining := budget;
      new;
      NothingCached(chunkCount);
    }

    /** Stores a chunk if there is room for it and a slot with its number. */
    method Insert(index: nat, ciphertext: Bytes)
      requires Valid()
      modifies this
      ensures Valid()
      ensures |ciphertext| > old(remaining) || index >= |old(entries)| ==>
              entries == old(entries) && remaining == old(remaining)
      ensures |ciphertext| <= old(remaining) && index < |old(entries)| ==>
                entries == old(entries)[index := Some(ciphertext)] && remaining == old(remaining) - |ciphertext|
    {
      if |ciphertext| > remaining {
        return;
      }
      if index >= |entries| {
        return;
      }
      CachedUpdate(entries, index, Some(ciphertext));
      remaining := remaining - |ciphertext|;
      entries := entries[index := Some(ciphertext)];
    }
  }

  lemma {:induction false} NothingCached(n: nat)
    ensures CachedBytes(seq(n, _ => None)) == 0
  {
    if n > 0 {
      NothingCached(n - 1);
      assert seq<Option<Bytes>>(n, _ => None)[..n - 1] == seq<Option<Bytes>>(n - 1, _ => None);
    }
  }

  /** Each cached entry is the ciphertext of its chunk. */
  ghost predicate Faithful(entries: seq<Option<Bytes>>, s: Schedule, ctx: ObjectContext, file: Bytes)
    requires ctx.Admitted() && |file| == ctx.size
  {
    && |entries| == ctx.chunkCount
    && forall i: nat :: i < ctx.chunkCount && entries[i].Some? ==> entries[i].value == Ciphertext(s, ctx, file, i)
  }

  function Digest(file: Bytes): Bytes {
    Output(Blake3(file), 32)
  }

  // --- Preparing ---

  /** `PendingTransfer::prepare`: leaves, plaintext digest and cache in one pass over the file. */
  method Prepare(s: Schedule, ctx: ObjectContext, file: Bytes, budget: nat)
    returns (leaves: seq<Hash>, digest: Bytes, cache: CiphertextCache)
    requires ctx.Admitted() && |file| == ctx.size
    ensures leaves == Leaves(s, ctx, file) && digest == Digest(file)
    ensures fresh(cache) && cache.Valid() && cache.budget == budget
    ensures Faithful(cache.entries, s, ctx, file)
  {
    hide AllowedChunkSize, LeafHash, EncryptChunk;
    leaves := [];
    var hashed: Bytes := [];
    cache := new CiphertextCache(ctx.chunkCount, budget);
    for index := 0 to ctx.chunkCount
      invariant leaves == Leaves(s, ctx, file)[..index]
      invariant hashed == file[..Edge(ctx, index)]
      invariant fresh(cache) && cache.Valid() && cache.budget == budget && Faithful(cache.entries, s, ctx, file)
    {
      var plaintext := Slice(ctx, file, index);
      NextEdge(ctx, index);
      assert file[..Edge(ctx, index)] + plaintext == file[..Edge(ctx, index + 1)];
      hashed := hashed + plaintext;
      var ciphertext := EncryptChunk(s, ctx, index, plaintext).value;
      leaves := leaves + [LeafHash(index, ciphertext)];
      cache.Insert(index, ciphertext);
    }
    digest := Digest(hashed);
    assert file[..Edge(ctx, ctx.chunkCount)] == file;
  }

  /** Where the first `n` chunks end. */
  function Edge(ctx: ObjectContext, n: nat): (e: nat)
    requires ctx.Admitted() && n <= ctx.chunkCount
    ensures e <= ctx.size
  {
    if n < ctx.chunkCount then
      StartBelowSize(ctx, n);
      ctx.Start(n)
    else ctx.size
  }

  lemma NextEdge(ctx: ObjectContext, n: nat)
    requires ctx.Admitted() && n < ctx.chunkCount
    ensures Edge(ctx, n) == ctx.Start(n) && Edge(ctx, n + 1) == ctx.Start(n) + ctx.Len(n)
  {
    hide AllowedChunkSize;
    ChunksMeet(ctx, n);
  }

  // --- Sending ---

  /** The record a chunk is shipped in. */
  function RecordFor(s: Schedule, ctx: ObjectContext, file: Bytes, index: nat): Record
    requires ctx.Admitted() && |file| == ctx.size && index < ctx.chunkCount
  {
    ChunkRecord.Record(index, ProofFor(Leaves(s, ctx, file), index), Ciphertext(s, ctx, file, index))
  }

  lemma RecordEncodes(s: Schedule, ctx: ObjectContext, file: Bytes, index: nat)
    requires ctx.Admitted() && |file| == ctx.size && index < ctx.chunkCount
    ensures Encodable(RecordFor(s, ctx, file, index))
  {
    hide AllowedChunkSize, EncryptChunk, LeafHash, ProofFor, Directions;
    var n := ctx.chunkCount;
    ProofLength(Leaves(s, ctx, file), index);
    DirectionsDepth(n, index);
    DepthBelow64(n);
    AllowedBounds(ctx.chunkSize);
    ChunksMeet(ctx, index);
  }

  lemma DepthBelow64(n: nat)
    requires 0 < n <= MAX_CHUNK_COUNT
    ensures BitLengthDepth(n) <= MAX_CHUNK_COUNT
  {
    PowersOfTwo.BitLengthSmall(n - 1);
  }

  /** `produce_chunk_record`: a cache hit skips the read and the encryption. */
  method ProduceRecord(s: Schedule, ctx: ObjectContext, file: Bytes, leaves: seq<Hash>, cache: CiphertextCache,
                       index: nat)
    returns (bytes: Bytes)
    requires ctx.Admitted() && |file| == ctx.size && index < ctx.chunkCount
    requires leaves == Leaves(s, ctx, file) && Faithful(cache.entries, s, ctx, file)
    ensures Encodable(RecordFor(s, ctx, file, index))
    ensures bytes == ChunkRecord.Encode(RecordFor(s, ctx, file, index))
  {
    hide AllowedChunkSize, EncryptChunk, ChunkRecord.Encode;
    RecordEncodes(s, ctx, file, index);
    var ciphertext: Bytes;
    if cache.entries[index].Some? {
      ciphertext := cache.entries[index].value;
    } else {
      ciphertext := EncryptChunk(s, ctx, index, Slice(ctx, file, index)).value;
    }
    var proof := BuildProof(leaves, index);
    bytes := EncodeRecord(ChunkRecord.Record(index, proof.value, ciphertext));
  }

  /** The chunk indices of a range list, in order. */
  function Indices(ranges: seq<Range>): seq<nat> {
    if ranges == [] then [] else Indices(ranges[..|ranges| - 1]) + Interval(ranges[|ranges| - 1])
  }

  function Interval(r: Range): (s: seq<nat>)
    ensures |s| == Span(r)
    ensures forall k :: 0 <= k < |s| ==> s[k] == r.0 + k
  {
    seq(Span(r), (k: nat) => r.0 + k)
  }

  lemma {:induction false} IndicesInside(ranges: seq<Range>, limit: nat)
    requires Apart(ranges, 0, limit)
    ensures forall k :: 0 <= k < |Indices(ranges)| ==> Indices(ranges)[k] < limit
    decreases |ranges|
  {
    if ranges != [] {
      IndicesInside(ranges[..|ranges| - 1], limit);
    }
  }

  /** The indices sent are exactly those the ranges cover, each once and in ascending order. */
  lemma {:induction false} IndicesAre(ranges: seq<Range>, limit: nat)
    requires Apart(ranges, 0, limit)
    ensures forall j: nat :: j in Indices(ranges) <==> Covered(ranges, j)
    ensures forall k, l :: 0 <= k < l < |Indices(ranges)| ==> Indices(ranges)[k] < Indices(ranges)[l]
    ensures |Indices(ranges)| == Total(ranges)
    decreases |ranges|
  {
    hide Interval, Total;
    if ranges == [] {
      TotalIs(ranges);
    } else {
      var n := |ranges| - 1;
      var front, last := ranges[..n], ranges[n];
      assert Apart(front, 0, last.0);
      IndicesAre(front, last.0);
      IntervalIs(last);
      TotalLast(front, last);
      assert ranges == front + [last];
      IndicesInside(front, last.0);
      forall j: nat ensures Covered(ranges, j) <==> Covered(front, j) || last.0 <= j < last.1 {
        CoveredLast(front, last, j);
      }
    }
  }

  lemma IntervalIs(r: Range)
    ensures forall j: nat :: j in Interval(r) <==> r.0 <= j < r.1
  {
    forall j: nat | r.0 <= j < r.1 ensures j in Interval(r) {
      assert Interval(r)[j - r.0] == j;
    }
  }

  lemma {:induction false} TotalLast(front: seq<Range>, last: Range)
    ensures Total(front + [last]) == Total(front) + Span(last)
    decreases |front|
  {
    if front == [] {
      assert front + [last] == [last] && [last][1..] == [];
    } else {
      TotalLast(front[1..], last);
      assert (front + [last])[1..] == front[1..] + [last];
    }
  }

  lemma CoveredLast(front: seq<Range>, last: Range, j: nat)
    ensures Covered(front + [last], j) <==> Covered(front, j) || last.0 <= j < last.1
  {
    var all := front + [last];
    if Covered(front, j) {
      var k :| 0 <= k < |front| && front[k].0 <= j < front[k].1;
      assert all[k] == front[k];
    }
    if last.0 <= j < last.1 {
      assert all[|front|] == last;
    }
    if Covered(all, j) && !(last.0 <= j < last.1) {
      var k :| 0 <= k < |all| && all[k].0 <= j < all[k].1;
      assert front[k] == all[k];
    }
  }

  /** The frames of a sender with no cache and no look-ahead: each requested chunk's record, in order. */
  ghost function PlainFrames(s: Schedule, ctx: ObjectContext, file: Bytes, indices: seq<nat>): (f: seq<Bytes>)
    requires ctx.Admitted() && |file| == ctx.size
    requires forall k :: 0 <= k < |indices| ==> indices[k] < ctx.chunkCount
    ensures |f| == |indices|
  {
    if indices == [] then []
    else
      var last := indices[|indices| - 1];
      RecordEncodes(s, ctx, file, last);
      PlainFrames(s, ctx, file, indices[..|indices| - 1]) + [ChunkRecord.Encode(RecordFor(s, ctx, file, last))]
  }

  /**
   The send loop: the record for a position is produced while the one before it is on the
   wire. Whatever the cache holds, the frames are those of the plain sender.
   */
  method SendChunks(s: Schedule, ctx: ObjectContext, file: Bytes, leaves: seq<Hash>, cache: CiphertextCache,
                    ranges: seq<Range>)
    returns (frames: seq<Bytes>, sentBytes: nat)
    requires ctx.Admitted() && |file| == ctx.size
    requires leaves == Leaves(s, ctx, file) && Faithful(cache.entries, s, ctx, file)
    requires ValidRanges(ranges, ctx.chunkCount)
    ensures forall k :: 0 <= k < |Indices(ranges)| ==> Indices(ranges)[k] < ctx.chunkCount
    ensures frames == PlainFrames(s, ctx, file, Indices(ranges))
    ensures sentBytes == SentBytes(ctx, Indices(ranges))
  {
    hide AllowedChunkSize, ChunkRecord.Encode, RecordFor, Faithful, Leaves, Apart, PlainFrames, SentBytes,
         ObjectContext.Len, Encodable, Indices;
    var indices := Indices(ranges);
    IndicesInside(ranges, ctx.chunkCount);
    frames := [];
    sentBytes := 0;
    NoFrames(s, ctx, file);
    assert indices[..0] == [];
    var ahead: Option<Bytes> := None;
    if |indices| > 0 {
      var record := ProduceRecord(s, ctx, file, leaves, cache, indices[0]);
      ahead := Some(record);
    }
    for position := 0 to |indices|
      invariant frames == PlainFrames(s, ctx, file, indices[..position])
      invariant sentBytes == SentBytes(ctx, indices[..position])
      invariant position < |indices| ==>
                  Encodable(RecordFor(s, ctx, file, indices[position])) &&
                      ahead == Some(ChunkRecord.Encode(RecordFor(s, ctx, file, indices[position])))
    {
      var record := ahead.value;
      ahead := None;
      OneMoreFrame(s, ctx, file, indices, position);
      frames := frames + [record];
      if position + 1 < |indices| {
        var next := ProduceRecord(s, ctx, file, leaves, cache, indices[position + 1]);
        ahead := Some(next);
      }
      sentBytes := sentBytes + ctx.Len(indices[position]);
    }
    assert indices[..|indices|] == indices;
  }

  function SentBytes(ctx: ObjectContext, indices: seq<nat>): nat
    requires ctx.Admitted() && forall k :: 0 <= k < |indices| ==> indices[k] < ctx.chunkCount
  {
    if indices == [] then 0 else SentBytes(ctx, indices[..|indices| - 1]) + ctx.Len(indices[|indices| - 1])
  }

  lemma NoFrames(s: Schedule, ctx: ObjectContext, file: Bytes)
    requires ctx.Admitted() && |file| == ctx.size
    ensures PlainFrames(s, ctx, file, []) == [] && SentBytes(ctx, []) == 0
  {
  }

  lemma OneMoreFrame(s: Schedule, ctx: ObjectContext, file: Bytes, indices: seq<nat>, n: nat)
    requires ctx.Admitted() && |file| == ctx.size && n < |indices|
    requires forall k :: 0 <= k < |indices| ==> indices[k] < ctx.chunkCount
    ensures Encodable(RecordFor(s, ctx, file, indices[n]))
    ensures PlainFrames(s, ctx, file, indices[..n + 1]) ==
            PlainFrames(s, ctx, file, indices[..n]) + [ChunkRecord.Encode(RecordFor(s, ctx, file, indices[n]))]
    ensures SentBytes(ctx, indices[..n + 1]) == SentBytes(ctx, indices[..n]) + ctx.Len(indices[n])
  {
    hide AllowedChunkSize, ChunkRecord.Encode, RecordFor, Encodable, ObjectContext.Len;
    RecordEncodes(s, ctx, file, indices[n]);
    assert indices[..n + 1][..n] == indices[..n];
  }

  /** Every record the sender ships passes the receiver's length, leaf, proof and AEAD checks. */
  lemma RecordPasses(s: Schedule, ctx: ObjectContext, file: Bytes, index: nat)
    requires ctx.Admitted() && |file| == ctx.size && index < ctx.chunkCount
    ensures var r := RecordFor(s, ctx, file, index);
            && |r.ciphertext| == ctx.Len(index) + TAG_LEN
            && Proves(LeafHash(index, r.ciphertext), index, ctx.chunkCount, r.proof, Root(Leaves(s, ctx, file)))
            && DecryptChunk(s, ctx, index, r.ciphertext) == Ok(Slice(ctx, file, index))
  {
    hide AllowedChunkSize, EncryptChunk, DecryptChunk, LeafHash, ProofFor, Proves, Root;
    BuiltProofProves(Leaves(s, ctx, file), index);
    DecryptsBack(s, ctx, index, Slice(ctx, file, index));
  }
}
