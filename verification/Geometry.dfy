/**
 Chunk geometry (`object.rs`) and the size window a public manifest is checked against
 (`manifest.rs`). Sizes are 64-bit; a chunk's plaintext size is 32-bit.
 */
module Geometry {
  import opened Octets

  const MAX_CHUNK_COUNT := U32_LIMIT
  const KIB := 1024

  /** The plaintext chunk sizes an object may use. */
  predicate AllowedChunkSize(n: int) {
    n in {64 * KIB, 128 * KIB, 256 * KIB, 512 * KIB, 1024 * KIB, 2048 * KIB, 4096 * KIB}
  }

  lemma AllowedBounds(n: int)
    requires AllowedChunkSize(n)
    ensures 64 * KIB <= n <= 4096 * KIB
  {
  }

  datatype ObjectContext = ObjectContext(transferId: Bytes, objectId: Bytes, size: U64, chunkSize: nat,
                                         chunkCount: nat) {

    /** What `ForFile` guarantees: the chunk count is the size divided by the chunk size, rounded up. */
    ghost predicate Admitted() {
      && |transferId| == ID_LEN && |objectId| == ID_LEN
      && AllowedChunkSize(chunkSize)
      && chunkCount <= MAX_CHUNK_COUNT
      && (if size == 0 then chunkCount == 0
          else chunkCount > 0 && (chunkCount - 1) * chunkSize < size <= chunkCount * chunkSize)
    }

    /** Offset of a chunk in the file. */
    function Start(index: nat): nat {
      index * chunkSize
    }

    /** `chunk_len`: the last chunk may be short. */
    function ChunkLen(index: nat): (r: Result<nat, ()>)
      requires Admitted()
      ensures r.Ok? <==> index < chunkCount
      ensures r.Ok? ==> r.value == Len(index)
    {
      if index >= chunkCount then Err(())
      else
        StartBelowSize(this, index);
        var remaining := size - Start(index);
        Ok(if remaining < chunkSize then remaining else chunkSize)
    }

    function Len(index: nat): nat
      requires Admitted() && index < chunkCount
    {
      if index + 1 < chunkCount then chunkSize
      else
        StartBelowSize(this, index);
        size - Start(index)
    }

    function ChunkCiphertextSize(): nat {
      chunkSize + TAG_LEN
    }

    /** Wire bytes of the whole object, computed in 64-bit words. */
    function CiphertextSize(): nat {
      if chunkCount == 0 then 0 else (size + chunkCount * TAG_LEN) % U64_LIMIT
    }
  }

  /** Every chunk starts inside the file and ends inside it; only the last may be short. */
  lemma StartBelowSize(ctx: ObjectContext, index: nat)
    requires ctx.Admitted() && index < ctx.chunkCount
    ensures ctx.Start(index) < ctx.size
    ensures index + 1 < ctx.chunkCount ==> ctx.Start(index) + ctx.chunkSize < ctx.size
    ensures index + 1 == ctx.chunkCount ==> ctx.size <= ctx.Start(index) + ctx.chunkSize
  {
    var last := ctx.chunkCount - 1;
    assert index * ctx.chunkSize <= last * ctx.chunkSize;
    assert (index + 1) * ctx.chunkSize == index * ctx.chunkSize + ctx.chunkSize;
    if index < last {
      assert (index + 1) * ctx.chunkSize <= last * ctx.chunkSize;
    }
  }

  /** `ObjectContext::for_file`. */
  function ForFile(transferId: Bytes, objectId: Bytes, size: U64, chunkSize: nat): (r: Result<ObjectContext, ()>)
    requires |transferId| == ID_LEN && |objectId| == ID_LEN
    ensures r.Ok? ==> r.value.Admitted() && r.value.size == size && r.value.chunkSize == chunkSize
    ensures r.Ok? <==> AllowedChunkSize(chunkSize) && size <= MAX_CHUNK_COUNT * chunkSize
  {
    if !AllowedChunkSize(chunkSize) then Err(())
    else
      var count := if size == 0 then 0 else (size + chunkSize - 1) / chunkSize;
      CeilingIs(size, chunkSize, MAX_CHUNK_COUNT);
      if count > MAX_CHUNK_COUNT then Err(()) else Ok(ObjectContext(transferId, objectId, size, chunkSize, count))
  }

  lemma CeilingIs(size: nat, chunk: nat, limit: nat)
    requires chunk > 0
    ensures size > 0 ==>
              var count := (size + chunk - 1) / chunk;
              count > 0 && (count - 1) * chunk < size <= count * chunk && (count <= limit <==> size <= limit * chunk)
  {
    if size > 0 {
      var count := (size + chunk - 1) / chunk;
      var rest := (size + chunk - 1) % chunk;
      assert size + chunk - 1 == count * chunk + rest;
      assert (count - 1) * chunk == count * chunk - chunk;
      if count <= limit {
        assert count * chunk <= limit * chunk;
      } else {
        assert limit * chunk <= (count - 1) * chunk;
      }
    }
  }

  // --- The chunks partition the file ---

  /** Consecutive chunks meet, the last one ends at the end of the file, and none is empty. */
  lemma ChunksMeet(ctx: ObjectContext, index: nat)
    requires ctx.Admitted() && index < ctx.chunkCount
    ensures 0 < ctx.Len(index) <= ctx.chunkSize
    ensures ctx.Start(index) + ctx.Len(index) == if index + 1 < ctx.chunkCount then ctx.Start(index + 1) else ctx.size
  {
    StartBelowSize(ctx, index);
    assert (index + 1) * ctx.chunkSize == index * ctx.chunkSize + ctx.chunkSize;
  }

  /** Two chunks never overlap. */
  lemma ChunksDisjoint(ctx: ObjectContext, i: nat, j: nat)
    requires ctx.Admitted() && i < j < ctx.chunkCount
    ensures ctx.Start(i) + ctx.Len(i) <= ctx.Start(j)
  {
    ChunksMeet(ctx, i);
    assert (i + 1) * ctx.chunkSize <= j * ctx.chunkSize;
  }

  ghost predicate InChunk(ctx: ObjectContext, index: nat, offset: nat)
    requires ctx.Admitted() && index < ctx.chunkCount
  {
    ctx.Start(index) <= offset < ctx.Start(index) + ctx.Len(index)
  }

  /** Every offset of the file lies in exactly one chunk: the one its quotient names. */
  lemma OffsetInOneChunk(ctx: ObjectContext, offset: nat, index: nat)
    requires ctx.Admitted() && offset < ctx.size && index < ctx.chunkCount
    ensures offset / ctx.chunkSize < ctx.chunkCount
    ensures InChunk(ctx, index, offset) <==> index == offset / ctx.chunkSize
  {
    hide AllowedChunkSize;
    AllowedBounds(ctx.chunkSize);
    var q := Quotient(offset, ctx.chunkSize);
    if q >= ctx.chunkCount {
      Products(ctx.chunkCount, ctx.chunkSize, q, ctx.chunkSize);
    }
    ChunksMeet(ctx, q);
    if index < q {
      ChunksDisjoint(ctx, index, q);
    } else if q < index {
      ChunksDisjoint(ctx, q, index);
    } else {
      assert ctx.Start(q + 1) == ctx.Start(q) + ctx.chunkSize;
    }
  }

  lemma Quotient(offset: nat, chunk: nat) returns (q: nat)
    requires chunk > 0
    ensures q == offset / chunk && q * chunk <= offset < q * chunk + chunk
  {
    q := offset / chunk;
    assert offset == q * chunk + offset % chunk;
  }

  // --- Sizes ---

  /** Total ciphertext length of the first `n` chunks. */
  function CiphertextUpTo(ctx: ObjectContext, n: nat): nat
    requires ctx.Admitted() && n <= ctx.chunkCount
  {
    if n == 0 then 0 else CiphertextUpTo(ctx, n - 1) + ctx.Len(n - 1) + TAG_LEN
  }

  lemma {:induction false} CiphertextUpToIs(ctx: ObjectContext, n: nat)
    requires ctx.Admitted() && n <= ctx.chunkCount
    ensures CiphertextUpTo(ctx, n) == (if n < ctx.chunkCount then ctx.Start(n) else ctx.size) + n * TAG_LEN
  {
    if n == 0 {
      assert ctx.Start(0) == 0;
    } else {
      CiphertextUpToIs(ctx, n - 1);
      ChunksMeet(ctx, n - 1);
    }
  }

  /** The wire lengths of the chunks add up to the object's wire size, which never overflows. */
  lemma CiphertextAddsUp(ctx: ObjectContext)
    requires ctx.Admitted()
    ensures CiphertextUpTo(ctx, ctx.chunkCount) == ctx.CiphertextSize()
    ensures ctx.size + ctx.chunkCount * TAG_LEN < U64_LIMIT
  {
    CiphertextUpToIs(ctx, ctx.chunkCount);
    assert ctx.chunkCount * ctx.chunkSize <= U32_LIMIT * (4096 * KIB) by {
      assert ctx.chunkSize <= 4096 * KIB;
      Products(ctx.chunkCount, ctx.chunkSize, U32_LIMIT, 4096 * KIB);
    }
  }

  lemma Products(a: nat, b: nat, c: nat, d: nat)
    requires a <= c && b <= d
    ensures a * b <= c * d
  {
    assert a * b <= c * b;
    assert c * b <= c * d;
  }

  /** `chunk_plaintext_size_from_ciphertext`. */
  function ChunkPlaintextSize(ciphertext: U64): (r: Result<nat, ()>)
    ensures r.Ok? ==> r.value < U32_LIMIT && r.value + TAG_LEN == ciphertext
    ensures r.Err? <==> ciphertext < TAG_LEN || ciphertext - TAG_LEN >= U32_LIMIT
  {
    if ciphertext < TAG_LEN || ciphertext - TAG_LEN >= U32_LIMIT then Err(()) else Ok(ciphertext - TAG_LEN)
  }

  // --- The manifest's size window, in the words the source computes with ---

  function Wrap64(n: int): U64 {
    n % U64_LIMIT
  }

  /** The per-object size checks of `PublicManifest::validate`: a 32-bit cast and 64-bit products. */
  predicate WindowAccepts(ciphertextSize: U64, chunkCiphertextSize: U64, chunkCount: U64) {
    && chunkCiphertextSize >= TAG_LEN
    && AllowedChunkSize((chunkCiphertextSize - TAG_LEN) % U32_LIMIT)
    && (if chunkCount == 0 then ciphertextSize == 0
        else
          var max := Wrap64(chunkCount * chunkCiphertextSize);
          var min := Wrap64(max - chunkCiphertextSize + 1 + TAG_LEN);
          min <= ciphertextSize <= max)
  }

  /** Identifiers do not matter to the geometry. */
  function NoId(): (id: Bytes)
    ensures |id| == ID_LEN
  {
    seq(ID_LEN, _ => Lit(0))
  }

  /** Some file with this chunk size has this chunk count and this wire size. */
  ghost predicate Producible(ciphertextSize: U64, chunkSize: nat, chunkCount: nat) {
    exists size: U64 :: Produces(size, ciphertextSize, chunkSize, chunkCount)
  }

  ghost predicate Produces(size: U64, ciphertextSize: U64, chunkSize: nat, chunkCount: nat) {
    && ForFile(NoId(), NoId(), size, chunkSize).Ok?
    && ForFile(NoId(), NoId(), size, chunkSize).value.chunkCount == chunkCount
    && ForFile(NoId(), NoId(), size, chunkSize).value.CiphertextSize() == ciphertextSize
  }

  /** Within those bounds nothing wraps, and the window is an interval of plain integers. */
  lemma WindowPlainly(ciphertextSize: U64, chunkSize: nat, chunkCount: nat)
    requires AllowedChunkSize(chunkSize) && chunkCount <= MAX_CHUNK_COUNT
    ensures chunkCount * chunkSize + chunkCount * TAG_LEN < U64_LIMIT
    ensures WindowAccepts(ciphertextSize, chunkSize + TAG_LEN, chunkCount) <==>
            if chunkCount == 0 then ciphertextSize == 0
            else (chunkCount - 1) * chunkSize < ciphertextSize - chunkCount * TAG_LEN <= chunkCount * chunkSize
  {
    hide AllowedChunkSize;
    AllowedBounds(chunkSize);
    Products(chunkCount, chunkSize, U32_LIMIT, 4096 * KIB);
    assert chunkCount * (chunkSize + TAG_LEN) == chunkCount * chunkSize + chunkCount * TAG_LEN;
    if chunkCount > 0 {
      var max := chunkCount * (chunkSize + TAG_LEN);
      assert (chunkCount - 1) * chunkSize == chunkCount * chunkSize - chunkSize;
      Products(1, chunkSize, chunkCount, chunkSize);
      assert Wrap64(max) == max;
      assert Wrap64(max - (chunkSize + TAG_LEN) + 1 + TAG_LEN) == max - chunkSize + 1;
    }
  }

  /** For allowed chunk sizes and counts up to 2^32 the window holds exactly the sizes files produce. */
  lemma WindowIsExact(ciphertextSize: U64, chunkSize: nat, chunkCount: nat)
    requires AllowedChunkSize(chunkSize) && chunkCount <= MAX_CHUNK_COUNT
    ensures WindowAccepts(ciphertextSize, chunkSize + TAG_LEN, chunkCount) <==>
            Producible(ciphertextSize, chunkSize, chunkCount)
  {
    hide AllowedChunkSize, WindowAccepts;
    AllowedBounds(chunkSize);
    WindowPlainly(ciphertextSize, chunkSize, chunkCount);
    if WindowAccepts(ciphertextSize, chunkSize + TAG_LEN, chunkCount) {
      if chunkCount == 0 {
        assert Produces(0, 0, chunkSize, 0);
      } else {
        Products(0, 0, chunkCount - 1, chunkSize);
        var size: U64 := ciphertextSize - chunkCount * TAG_LEN;
        CountDetermined(size, chunkSize, chunkCount);
        assert Produces(size, ciphertextSize, chunkSize, chunkCount);
      }
    }
    if Producible(ciphertextSize, chunkSize, chunkCount) {
      var size: U64 :| Produces(size, ciphertextSize, chunkSize, chunkCount);
      CiphertextAddsUp(ForFile(NoId(), NoId(), size, chunkSize).value);
    }
  }

  lemma CountDetermined(size: U64, chunkSize: nat, chunkCount: nat)
    requires AllowedChunkSize(chunkSize) && 0 < chunkCount <= MAX_CHUNK_COUNT
    requires (chunkCount - 1) * chunkSize < size <= chunkCount * chunkSize
    ensures ForFile(NoId(), NoId(), size, chunkSize).Ok?
    ensures ForFile(NoId(), NoId(), size, chunkSize).value.chunkCount == chunkCount
    ensures ForFile(NoId(), NoId(), size, chunkSize).value.CiphertextSize() == size + chunkCount * TAG_LEN
  {
    hide AllowedChunkSize, ForFile;
    Products(chunkCount, chunkSize, MAX_CHUNK_COUNT, chunkSize);
    Products(0, 0, chunkCount - 1, chunkSize);
    var ctx := ForFile(NoId(), NoId(), size, chunkSize).value;
    CountIsOne(chunkCount, ctx.chunkCount, chunkSize, size);
    CiphertextAddsUp(ctx);
  }

  lemma CountIsOne(a: nat, b: nat, chunk: nat, size: nat)
    requires 0 < a && 0 < b && (a - 1) * chunk < size <= a * chunk && (b - 1) * chunk < size <= b * chunk
    ensures a == b
  {
    if a < b {
      Products(a, chunk, b - 1, chunk);
    } else if b < a {
      Products(b, chunk, a - 1, chunk);
    }
  }

  lemma WindowCasts(ciphertextSize: U64, chunkCiphertextSize: U64, chunkCount: U64)
    requires WindowAccepts(ciphertextSize, chunkCiphertextSize, chunkCount)
    ensures chunkCiphertextSize >= TAG_LEN && AllowedChunkSize((chunkCiphertextSize - TAG_LEN) % U32_LIMIT)
  {
    hide AllowedChunkSize, Wrap64;
  }

  /**
   The 32-bit cast lets the window accept a chunk size it should not, but a receiver that
   also inverts the chunk size, as it must to build its context, refuses every such object.
   */
  lemma CastIsHarmless(ciphertextSize: U64, chunkCiphertextSize: U64, chunkCount: U64)
    requires WindowAccepts(ciphertextSize, chunkCiphertextSize, chunkCount)
    ensures ChunkPlaintextSize(chunkCiphertextSize).Ok? <==> AllowedChunkSize(chunkCiphertextSize - TAG_LEN)
  {
    hide AllowedChunkSize, WindowAccepts;
    WindowCasts(ciphertextSize, chunkCiphertextSize, chunkCount);
    if AllowedChunkSize(chunkCiphertextSize - TAG_LEN) {
      AllowedBounds(chunkCiphertextSize - TAG_LEN);
    }
  }

  /** The cast's effect, concretely: a chunk size just past 2^32 passes the window for an empty object. */
  lemma CastAccepts()
    ensures WindowAccepts(0, U32_LIMIT + 64 * KIB + TAG_LEN, 0)
    ensures !AllowedChunkSize(U32_LIMIT + 64 * KIB)
  {
  }
}
