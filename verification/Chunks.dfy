/**
 Chunk encryption (`object.rs`, `keys.rs`) and the leaves a sender commits to. Encryption is
 deterministic: key, nonce and associated data follow from the file's secrets, its context
 and the chunk index.
 */
module Chunks {
  import opened Octets
  import opened Cbor
  import opened Merkle
  import opened Geometry

  /** The per-file secrets every chunk key and nonce is derived from. */
  datatype Schedule = Schedule(chunkKeyBase: Bytes, nonceSeed: Bytes)

  function ChunkKey(s: Schedule, ctx: ObjectContext, index: nat): Bytes {
    Output(Expand(s.chunkKeyBase, Ascii("RTP2-CHUNK-KEY-v1") + ctx.objectId + BigEndian(index, 8)), 32)
  }

  function ChunkNonce(s: Schedule, ctx: ObjectContext, index: nat): Bytes {
    var material := s.nonceSeed + ctx.transferId + ctx.objectId + BigEndian(index, 8);
    Output(Blake3Key(Ascii("Reyta RTP2 2026-08-01 chunk nonce v1"), material), 24)
  }

  /** A field of the context: a number or an identifier. */
  datatype Field = Number(n: U64) | Id(id: Bytes) {
    ghost predicate Sized() {
      Id? ==> |id| < U64_LIMIT
    }
  }

  /** Fields under successive keys. */
  function PutFields(fields: seq<Field>, key: U64, tail: Bytes): Bytes
    requires forall f :: f in fields ==> f.Sized()
    requires key + |fields| < U64_LIMIT
  {
    if fields == [] then tail
    else
      assert fields[0] in fields && fields[0].Sized();
      var rest := PutFields(fields[1..], key + 1, tail);
      PutUint(key, match fields[0] case Number(n) => PutUint(n, rest) case Id(id) => PutBytes(id, rest))
  }

  /** The geometry and identity of the object, in the order of their keys. */
  function ContextFields(ctx: ObjectContext): (f: seq<Field>)
    requires ctx.Admitted()
    ensures |f| == 10 && forall x :: x in f ==> x.Sized()
  {
    AllowedBounds(ctx.chunkSize);
    [Number(PROTOCOL_MAJOR), Number(SUITE_ID), Id(ctx.transferId), Id(ctx.objectId), Number(ctx.size), Number(ctx.size),
     Number(ctx.chunkSize), Number(ctx.chunkCount), Number(0), Number(0)]
  }

  function ContextHash(ctx: ObjectContext): (h: Bytes)
    requires ctx.Admitted()
    ensures |h| == ID_LEN
  {
    Tagged("RTP2-OBJECT-CONTEXT-v1", PutMap(10, PutFields(ContextFields(ctx), 0, [])))
  }

  lemma {:induction false} FieldsPeel(a: seq<Field>, b: seq<Field>, key: U64)
    requires (forall f :: f in a ==> f.Sized()) && (forall f :: f in b ==> f.Sized())
    requires |a| == |b| && key + |a| < U64_LIMIT && (forall i :: 0 <= i < |a| ==> a[i].Id? == b[i].Id?)
    requires PutFields(a, key, []) == PutFields(b, key, [])
    ensures a == b
    decreases |a|
  {
    hide PutUint, PutBytes;
    if a != [] {
      assert a[0] in a && b[0] in b;
      Peels();
      FieldsPeel(a[1..], b[1..], key + 1);
    }
  }

  /** The context hash fixes every field of the context. */
  lemma ContextHashBinds(a: ObjectContext, b: ObjectContext)
    requires a.Admitted() && b.Admitted() && ContextHash(a) == ContextHash(b)
    ensures a == b
  {
    hide Tagged, PutUint, PutBytes, PutMap, PutFields, AllowedChunkSize;
    var x, y := PutFields(ContextFields(a), 0, []), PutFields(ContextFields(b), 0, []);
    TaggedSplits("RTP2-OBJECT-CONTEXT-v1", PutMap(10, x), PutMap(10, y));
    Peels();
    FieldsPeel(ContextFields(a), ContextFields(b), 0);
    assert ContextFields(a)[2] == ContextFields(b)[2] && ContextFields(a)[3] == ContextFields(b)[3];
    assert ContextFields(a)[4] == ContextFields(b)[4];
    assert ContextFields(a)[6] == ContextFields(b)[6] && ContextFields(a)[7] == ContextFields(b)[7];
  }

  /** The fixed layout of a chunk's associated data, from the context hash on. */
  function PlaceOf(ctx: ObjectContext, index: nat, hash: Bytes): Bytes
    requires ctx.Admitted() && index < ctx.chunkCount
  {
    hash + (BigEndian(index, 8) + (BigEndian(ctx.Start(index), 8) + (BigEndian(ctx.Len(index), 4) + BigEndian(0, 4))))
  }

  function ChunkAad(ctx: ObjectContext, index: nat): Bytes
    requires ctx.Admitted() && index < ctx.chunkCount
  {
    Ascii("RTP2CHNK") + (BigEndian(PROTOCOL_MAJOR, 2) + (BigEndian(SUITE_ID, 2) +
      (ctx.transferId + (ctx.objectId + PlaceOf(ctx, index, ContextHash(ctx))))))
  }

  /** `encrypt_chunk`: refused unless the plaintext has the chunk's length. */
  function EncryptChunk(s: Schedule, ctx: ObjectContext, index: nat, plaintext: Bytes): (r: Result<Bytes, ()>)
    requires ctx.Admitted()
    ensures r.Ok? <==> index < ctx.chunkCount && |plaintext| == ctx.Len(index)
    ensures r.Ok? ==> |r.value| == ctx.Len(index) + TAG_LEN
  {
    var expected :- ctx.ChunkLen(index);
    if |plaintext| != expected then Err(())
    else Ok(Seal(ChunkKey(s, ctx, index), ChunkNonce(s, ctx, index), ChunkAad(ctx, index), plaintext))
  }

  /** `decrypt_chunk`: length, AEAD, length again. */
  function DecryptChunk(s: Schedule, ctx: ObjectContext, index: nat, ciphertext: Bytes): (r: Result<Bytes, ()>)
    requires ctx.Admitted()
    ensures r.Ok? ==> index < ctx.chunkCount && |r.value| == ctx.Len(index)
    ensures r.Ok? ==> EncryptChunk(s, ctx, index, r.value) == Ok(ciphertext)
  {
    var expected :- ctx.ChunkLen(index);
    if |ciphertext| != expected + TAG_LEN then Err(())
    else
      var p := Open(ChunkKey(s, ctx, index), ChunkNonce(s, ctx, index), ChunkAad(ctx, index), ciphertext);
      if p.None? || |p.value| != expected then Err(()) else Ok(p.value)
  }

  /** Decryption inverts encryption. */
  lemma DecryptsBack(s: Schedule, ctx: ObjectContext, index: nat, plaintext: Bytes)
    requires ctx.Admitted() && EncryptChunk(s, ctx, index, plaintext).Ok?
    ensures DecryptChunk(s, ctx, index, EncryptChunk(s, ctx, index, plaintext).value) == Ok(plaintext)
  {
    hide AllowedChunkSize, Open, Seal, ChunkKey, ChunkNonce, ChunkAad;
    OpenSealed(ChunkKey(s, ctx, index), ChunkNonce(s, ctx, index), ChunkAad(ctx, index), plaintext);
  }

  /** A ciphertext has one plaintext, whatever secrets and context it is opened with. */
  lemma OnePlaintext(s: Schedule, ctx: ObjectContext, index: nat, s': Schedule, ctx': ObjectContext, index': nat,
                     ciphertext: Bytes)
    requires ctx.Admitted() && ctx'.Admitted()
    requires DecryptChunk(s, ctx, index, ciphertext).Ok? && DecryptChunk(s', ctx', index', ciphertext).Ok?
    ensures DecryptChunk(s, ctx, index, ciphertext).value == DecryptChunk(s', ctx', index', ciphertext).value
  {
    hide AllowedChunkSize, Open, Seal, ChunkKey, ChunkNonce, ChunkAad, DecryptChunk;
    SealInjective(ChunkKey(s, ctx, index), ChunkNonce(s, ctx, index), ChunkAad(ctx, index),
                  DecryptChunk(s, ctx, index, ciphertext).value,
                  ChunkKey(s', ctx', index'), ChunkNonce(s', ctx', index'), ChunkAad(ctx', index'),
                  DecryptChunk(s', ctx', index', ciphertext).value);
  }

  lemma AadBinds(ctx: ObjectContext, index: nat, ctx': ObjectContext, index': nat)
    requires ctx.Admitted() && ctx'.Admitted() && index < ctx.chunkCount && index' < ctx'.chunkCount
    requires ChunkAad(ctx, index) == ChunkAad(ctx', index')
    ensures ctx == ctx' && index == index'
  {
    hide Ascii, BigEndian, ContextHash, AllowedChunkSize;
    var major, suite := BigEndian(PROTOCOL_MAJOR, 2), BigEndian(SUITE_ID, 2);
    var p, q := PlaceOf(ctx, index, ContextHash(ctx)), PlaceOf(ctx', index', ContextHash(ctx'));
    var x, y := ctx.transferId + (ctx.objectId + p), ctx'.transferId + (ctx'.objectId + q);
    SplitAt(Ascii("RTP2CHNK"), major + (suite + x), Ascii("RTP2CHNK"), major + (suite + y));
    SplitAt(major, suite + x, major, suite + y);
    SplitAt(suite, x, suite, y);
    SplitAt(ctx.transferId, ctx.objectId + p, ctx'.transferId, ctx'.objectId + q);
    SplitAt(ctx.objectId, p, ctx'.objectId, q);
    PlaceBinds(ctx, index, ContextHash(ctx), ctx', index', ContextHash(ctx'));
    ContextHashBinds(ctx, ctx');
  }

  lemma PlaceBinds(ctx: ObjectContext, index: nat, h: Bytes, ctx': ObjectContext, index': nat, h': Bytes)
    requires ctx.Admitted() && ctx'.Admitted() && index < ctx.chunkCount && index' < ctx'.chunkCount
    requires |h| == |h'| && PlaceOf(ctx, index, h) == PlaceOf(ctx', index', h')
    ensures h == h' && index == index'
  {
    hide BigEndian, AllowedChunkSize;
    var x := BigEndian(ctx.Start(index), 8) + (BigEndian(ctx.Len(index), 4) + BigEndian(0, 4));
    var y := BigEndian(ctx'.Start(index'), 8) + (BigEndian(ctx'.Len(index'), 4) + BigEndian(0, 4));
    SplitAt(h, BigEndian(index, 8) + x, h', BigEndian(index', 8) + y);
    SplitAt(BigEndian(index, 8), x, BigEndian(index', 8), y);
    Pow256Values();
    BigEndianInjective(index, index', 8);
  }

  /** A ciphertext opens in one context and at one index only, whatever the secrets. */
  lemma CiphertextFixesPlace(s: Schedule, ctx: ObjectContext, index: nat, s': Schedule, ctx': ObjectContext,
                             index': nat,
                             ciphertext: Bytes)
    requires ctx.Admitted() && ctx'.Admitted()
    requires DecryptChunk(s, ctx, index, ciphertext).Ok? && DecryptChunk(s', ctx', index', ciphertext).Ok?
    ensures ctx == ctx' && index == index'
  {
    hide AllowedChunkSize, Open, Seal, ChunkKey, ChunkNonce, ChunkAad, DecryptChunk;
    var p, q := DecryptChunk(s, ctx, index, ciphertext).value, DecryptChunk(s', ctx', index', ciphertext).value;
    SealInjective(ChunkKey(s, ctx, index), ChunkNonce(s, ctx, index), ChunkAad(ctx, index), p,
                  ChunkKey(s', ctx', index'), ChunkNonce(s', ctx', index'), ChunkAad(ctx', index'), q);
    AadBinds(ctx, index, ctx', index');
  }

  /**
   No two chunks under one file's secrets share a key or a nonce, whatever the indices, and a key
   is never used for two objects.
   */
  lemma KeysAndNoncesDiffer(s: Schedule, ctx: ObjectContext, index: nat, ctx': ObjectContext, index': nat)
    requires ctx.Admitted() && ctx'.Admitted() && index < ctx.chunkCount && index' < ctx'.chunkCount
    ensures ChunkKey(s, ctx, index) == ChunkKey(s, ctx', index') <==> ctx.objectId == ctx'.objectId && index == index'
    ensures ChunkNonce(s, ctx, index) == ChunkNonce(s, ctx', index') <==>
            ctx.transferId == ctx'.transferId && ctx.objectId == ctx'.objectId && index == index'
  {
    hide Ascii, BigEndian, AllowedChunkSize;
    var n, n' := BigEndian(index, 8), BigEndian(index', 8);
    assert n == n' <==> index == index' by {
      Pow256Values();
      if n == n' {
        BigEndianInjective(index, index', 8);
      }
    }
    var info := Ascii("RTP2-CHUNK-KEY-v1");
    if ChunkKey(s, ctx, index) == ChunkKey(s, ctx', index') {
      OutputInjective(Expand(s.chunkKeyBase, info + ctx.objectId + n),
                      Expand(s.chunkKeyBase, info + ctx'.objectId + n'), 32);
      SplitAt(info + ctx.objectId, n, info + ctx'.objectId, n');
      SplitAt(info, ctx.objectId, info, ctx'.objectId);
    }
    if ChunkNonce(s, ctx, index) == ChunkNonce(s, ctx', index') {
      NonceSplits(s, ctx, n, ctx', n');
    }
  }

  lemma NonceSplits(s: Schedule, ctx: ObjectContext, n: Bytes, ctx': ObjectContext, n': Bytes)
    requires |ctx.transferId| == |ctx'.transferId| && |ctx.objectId| == |ctx'.objectId| && |n| == |n'|
    requires var context := Ascii("Reyta RTP2 2026-08-01 chunk nonce v1");
             Output(Blake3Key(context, s.nonceSeed + ctx.transferId + ctx.objectId + n), 24) ==
             Output(Blake3Key(context, s.nonceSeed + ctx'.transferId + ctx'.objectId + n'), 24)
    ensures ctx.transferId == ctx'.transferId && ctx.objectId == ctx'.objectId && n == n'
  {
    hide Ascii;
    var seed, context := s.nonceSeed, Ascii("Reyta RTP2 2026-08-01 chunk nonce v1");
    OutputInjective(Blake3Key(context, seed + ctx.transferId + ctx.objectId + n),
                    Blake3Key(context, seed + ctx'.transferId + ctx'.objectId + n'), 24);
    SplitAt(seed + ctx.transferId + ctx.objectId, n, seed + ctx'.transferId + ctx'.objectId, n');
    SplitAt(seed + ctx.transferId, ctx.objectId, seed + ctx'.transferId, ctx'.objectId);
    SplitAt(seed, ctx.transferId, seed, ctx'.transferId);
  }

  /** One chunk of a file of the context's size. */
  function Slice(ctx: ObjectContext, file: Bytes, index: nat): (s: Bytes)
    requires ctx.Admitted() && |file| == ctx.size && index < ctx.chunkCount
    ensures |s| == ctx.Len(index)
  {
    ChunksMeet(ctx, index);
    SliceInside(ctx, index);
    file[ctx.Start(index)..ctx.Start(index) + ctx.Len(index)]
  }

  lemma SliceInside(ctx: ObjectContext, index: nat)
    requires ctx.Admitted() && index < ctx.chunkCount
    ensures ctx.Start(index) + ctx.Len(index) <= ctx.size
  {
    ChunksMeet(ctx, index);
    if index + 1 < ctx.chunkCount {
      StartBelowSize(ctx, index + 1);
    }
  }

  /** The ciphertext a sender ships for a chunk. */
  function Ciphertext(s: Schedule, ctx: ObjectContext, file: Bytes, index: nat): Bytes
    requires ctx.Admitted() && |file| == ctx.size && index < ctx.chunkCount
  {
    EncryptChunk(s, ctx, index, Slice(ctx, file, index)).value
  }

  /** The leaves of a file, in order. */
  function Leaves(s: Schedule, ctx: ObjectContext, file: Bytes): (l: seq<Hash>)
    requires ctx.Admitted() && |file| == ctx.size
    ensures |l| == ctx.chunkCount
  {
    seq(ctx.chunkCount, (i: nat) requires i < ctx.chunkCount => LeafHash(i, Ciphertext(s, ctx, file, i)))
  }

  /** Two files that agree chunk by chunk are equal. */
  lemma FilesAgree(ctx: ObjectContext, a: Bytes, b: Bytes)
    requires ctx.Admitted() && |a| == ctx.size && |b| == ctx.size
    requires forall i: nat :: i < ctx.chunkCount ==> Slice(ctx, a, i) == Slice(ctx, b, i)
    ensures a == b
  {
    forall o: nat | o < ctx.size ensures a[o] == b[o] {
      SameAt(ctx, a, b, o);
    }
  }

  lemma SameAt(ctx: ObjectContext, a: Bytes, b: Bytes, o: nat)
    requires ctx.Admitted() && |a| == ctx.size && |b| == ctx.size && o < ctx.size
    requires forall i: nat :: i < ctx.chunkCount ==> Slice(ctx, a, i) == Slice(ctx, b, i)
    ensures a[o] == b[o]
  {
    hide AllowedChunkSize;
    SizeHasChunk(ctx);
    OffsetInOneChunk(ctx, o, 0);
    var i := o / ctx.chunkSize;
    OffsetInOneChunk(ctx, o, i);
    SliceInside(ctx, i);
    assert Slice(ctx, a, i)[o - ctx.Start(i)] == a[o];
    assert Slice(ctx, b, i)[o - ctx.Start(i)] == b[o];
  }

  lemma SizeHasChunk(ctx: ObjectContext)
    requires ctx.Admitted() && ctx.size > 0
    ensures ctx.chunkCount > 0 && ctx.chunkSize > 0
  {
  }
}
