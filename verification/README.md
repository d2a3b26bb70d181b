# RTP/2 transfer core: a verified model

RTP/2 moves files between devices: a hybrid handshake gives two devices their session keys, a
control channel carries sealed frames in epochs, a signed offer commits to a Merkle root over
encrypted chunks, and the receiver checks every chunk against that root, keeps a resume record
beside the file, and finally compares the plaintext digest the sender claimed. This project
models those parts and proves what they guarantee together, over whole runs.

`dafny verify dfyconfig.toml` checks all of it.

| file | part |
|---|---|
| `Octets`, `PowersOfTwo` | bytes with symbolic cryptography; arithmetic |
| `Cbor`, `CborValues`, `CborStreams` | the deterministic encoding: specification, text and skipped values, and the mutable writer and readers |
| `Merkle`, `ChunkRecord` | commitment, proofs, and the record a chunk travels in |
| `Geometry`, `Chunks` | chunk arithmetic, chunk encryption |
| `Control` | the control channel and two endpoints over an arbitrary network |
| `Rle`, `Bitmap` | run-length coding, packed bitmap |
| `Scheduler`, `Interests`, `RangeCodec` | range requests, priorities, their wire form |
| `Sender` | preparing, cache, look-ahead sending |
| `Storage`, `ResumeCodec` | a disk that may crash, the resume database, the record as a file |
| `Receiver`, `ReceiverSafety`, `ReceiverRuns`, `ReceiverProgress` | the receiver as a machine of small steps; its invariants, whole runs, what it can reach |
| `Outcomes`, `ReceiveFile`, `Transfer` | how an attempt ends; the receive loop itself; an attempt from request to result |
| `Messages`, `Handshake`, `ReplayCache` | handshake messages, both sides |
| `Authentication`, `Agreement`, `Session` | what each side accepts, what two sessions share, and the channel they open |
| `Manifest`, `Offer` | public manifest, transfer offer |
| `Events`, `Store` | event queue, resumption secrets |

How the model is set up:

- A byte is a literal or one octet of the output of a primitive. Digests, MACs, derived keys,
  ciphertexts, signatures and public keys are such outputs, with their real lengths. An output
  octet records the application it came from, so primitives are injective and never collide,
  AEAD opens only what was sealed with the same key, nonce and associated data, and a signature
  binds its message. Reading an output octet as a CBOR header or a number is refused.
- Randomness, the clock, system-call outcomes and the validity of foreign keys are parameters.
- A write reaches the file at once but survives a crash for certain only after a sync; until
  then each byte may come back as any value it had since. Bytes a file gains by being
  lengthened, or had when it was removed, may come back as anything (stale storage), or not at
  all. A rename leaves a whole record or list; which one is certain only once the directory is
  synced. That holds for checkpoints and for the store of resumption secrets alike.
- Code that changes state is a class or a loop, proved against a function of the old state.
  Theorems about runs are stated over those functions.
- 64-bit sums and products that the code does not check wrap, as in a release build.

What turned out not to hold as one might expect, each with its exact condition:

- A chunk record with more than 14 proof steps never decodes, because a level is entered per
  step and left once. So objects of more than 16384 chunks are never received, and objects of
  at most that many always can be (`LargeObjectsNeverFinish`, `CanFinish`).
- An attempt asks once, for at most 1024 gaps. So with more gaps left, an attempt in which
  nothing fails still ends as incomplete, and with at most 1024 it completes (`OneAttempt`).
- After a failed digest comparison the file is removed, then the record. Both removals can be
  undone or overtaken by a crash: until the directory is synced, a crash can bring back any
  record it could bring back before, also after the record was forgotten. What later attempts
  hold then stands for certain exactly when none of those records named a chunk
  (`DiscardIsSafeIff`); and a false digest does lead to an attempt that holds a chunk its file
  does not have (`FalseDigestBreaks`). It is enough that the file is gone, except for a chunk of
  zeros, which a new file has too (`GoneFileBreaksIff`). An honest sender never leads there
  (`HonestNeverDiscards`), and a later success still means the right file (`SuccessIsTheFile`).
- A Merkle proof's shape does not pin the leaf count; it is accepted for exactly the counts
  that split alike along its path (`ClaimedSizes`).
- Run-length streams have several encodings. An accepted stream is the encoder's own exactly
  when no run after the first is zero, the runs are not the single run zero, and no integer
  takes ten bytes with a last byte above one (`CanonicalIff`, `ZeroRunMerges`,
  `TenBytesReadAsZero`).
- Manifests have several encodings, exactly those with an extension map added (`DecodesExactly`,
  `ReencodesIffPlain`, `ExtensionIsDropped`).
- An offer can be created, and verified by its creator, that no recipient can decode: exactly
  when the scope or an address is longer than 512 bytes or the whole does not fit
  (`CreatedArrives`, `LongScopeExists`).
- The manifest's size window truncates the chunk size (`CastAccepts`, `CastIsHarmless`).
- A comment says that a crash can lose a resumption secret but never reuse one. The directory
  sync after the rename is best effort, so a crash can bring back the list that still has a
  secret already handed out. It is handed out again in some run exactly when such a list exists
  (`ReuseIff`, `CrashReuses`), and never if a sync comes first (`SecretsAreSingleUse`).
- Rekeying in epoch 2^64 - 1 starts the epoch numbers over, after which the nonce of any frame
  sealed before can come round again; exactly there (`RekeyIsSafeIff`).
- A fresh resumption secret can be the one evicted, exactly when 64 live ones are strictly newer
  (`NewSecretKept`, `NewSecretDropped`), although a comment says a flood cannot evict one.
- The decoder of a resume record does not check that durable chunks are verified ones; records
  that a checkpoint wrote have it, since every run keeps it (`RecordsSurviveCrashes`).

The proof builder's doubling loop ends exactly for counts up to 2^63 (`BuilderLoopEnds`). No
slice of 32-byte hashes has more entries, so this is why it always ends, not a fault.

## Model

| member | source | states |
|---|---|---|
| `Cbor.Head` | prototype/native/rtp2-core/src/cbor.rs:212-255 | whatever header is accepted is the one shortest header of its major type and argument, followed by exactly the bytes left over; floats, other simple values, reserved and indefinite lengths are refused |
| `Cbor.Cursor.Array` | prototype/native/rtp2-core/src/cbor.rs:304-311 | an accepted array is its canonical header, and the reader is one level deeper, at most 16 |
| `Cbor.Cursor.Map` | prototype/native/rtp2-core/src/cbor.rs:313-332 | an accepted map is its canonical header, and the reader is one level deeper, at most 16 |
| `Cbor.MapReader.NextKey` | prototype/native/rtp2-core/src/cbor.rs:349-363 | a key must exceed the last one; at the end of the map the reader leaves its level |
| `Cbor.HeadReads` | prototype/native/rtp2-core/src/cbor.rs:57-74 | every header written is read back as itself with the rest untouched |
| `Cbor.ReadsBack` | prototype/native/rtp2-core/src/cbor.rs:174-337 | integers, booleans, byte strings, arrays and maps each read back from their own encoding and leave exactly the tail |
| `Cbor.Peels` | prototype/native/rtp2-core/src/cbor.rs:57-102 | encodings are prefix-free: equal bytes that start with an item have equal items and equal rests |
| `Cbor.IntegerExamples` | prototype/native/rtp2-core/src/cbor.rs:57-74 | the integers of the standard's examples have the bytes given there |
| `Cbor.WideExample` | prototype/native/rtp2-core/src/cbor.rs:57-74 | and a four-byte one |
| `Cbor.StructureExamples` | prototype/native/rtp2-core/src/cbor.rs:430-456 | so have an array, the booleans and the map of the writer's own test |
| `CborStreams.Writer.Head` | prototype/native/rtp2-core/src/cbor.rs:57-74 | the growing buffer gets exactly the canonical header |
| `CborStreams.Reader.Head` | prototype/native/rtp2-core/src/cbor.rs:203-255 | the position-based reader does what the specification reader does on the bytes left over, errors included |
| `CborStreams.Reader.Map` | prototype/native/rtp2-core/src/cbor.rs:313-332 | entering a map in place follows the specification reader, depth included |
| `CborStreams.Reader.Array` | prototype/native/rtp2-core/src/cbor.rs:304-332 | entering an array in place follows the specification reader, depth included |
| `CborStreams.MapStream.NextKey` | prototype/native/rtp2-core/src/cbor.rs:349-363 | reading a key in place follows the specification map reader: count, order and leaving |
| `Merkle.LargestPowerOfTwoBelow` | prototype/native/rtp2-core/src/merkle.rs:70-77 | the builder's doubling loop finds the split point, and its last product fits a word for up to 2^63 leaves |
| `Merkle.LargestPowerOfTwoBelowU64` | prototype/native/rtp2-core/src/merkle.rs:167-185 | the verifier's loop finds the same split point for every 64-bit count, without overflow |
| `Merkle.BuilderLoopEnds` | prototype/native/rtp2-core/src/merkle.rs:70-77 | run on 64-bit words the builder's loop ends exactly for counts up to 2^63, and then at the split; no slice of hashes is longer, so every call ends |
| `Merkle.ExpectedDirections` | prototype/native/rtp2-core/src/merkle.rs:161-185 | the pushed directions are the path shape of the tree |
| `Merkle.VerifyProof` | prototype/native/rtp2-core/src/merkle.rs:115-158 | accepts exactly the proofs of the right shape that climb to the root, and says for every other input which of the five errors is returned |
| `Merkle.BuiltProofProves` | prototype/native/rtp2-core/src/merkle.rs:81-108 | every proof built for an index of a tree verifies against its root |
| `Merkle.VerificationIsExact` | prototype/native/rtp2-core/src/merkle.rs:57-158 | against the root of a leaf list and its true length, verification succeeds for the leaf at that index and the siblings the builder returns, and for nothing else |
| `Merkle.ProofsAreUnique` | prototype/native/rtp2-core/src/merkle.rs:115-158 | one root, count and index admit one leaf and one sibling list |
| `Merkle.RootInjective` | prototype/native/rtp2-core/src/merkle.rs:57-68 | equal roots of equally long lists force equal lists |
| `Merkle.RootPinsLeaves` | prototype/native/rtp2-core/src/merkle.rs:32-68 | over leaf hashes a root fixes the list whatever its length, since leaf, node and empty domains differ |
| `Merkle.DirectionsDepth` | prototype/native/rtp2-core/src/merkle.rs:161-185 | a path is never longer than the base-two logarithm of the count, rounded up |
| `Merkle.SameShape` | prototype/native/rtp2-core/src/merkle.rs:251-273 | for every index, a claimed count gives the same path shape exactly when it splits alike at every node from which the path goes right, and at the first from which it goes left |
| `Merkle.AlikeFromTheLeft` | prototype/native/rtp2-core/src/merkle.rs:251-273 | for an index in the left part those are exactly the counts between the split and twice the split |
| `Merkle.ClaimedSizes` | prototype/native/rtp2-core/src/merkle.rs:251-273 | so a true proof verifies under exactly those claimed counts: the shape check alone does not pin the count |
| `ChunkRecord.EncodeRecord` | prototype/native/rtp2-core/src/transfer.rs:333-355 | the writer calls produce the record's encoding |
| `ChunkRecord.DecodeRecord` | prototype/native/rtp2-core/src/transfer.rs:357-391 | the reader calls, with one level entered per proof step and one left after the loop, compute the specification decoder |
| `ChunkRecord.RecordCanonical` | prototype/native/rtp2-core/src/transfer.rs:357-391 | bytes that decode are the encoding of the result, whose proof has at most 14 steps |
| `ChunkRecord.RecordReads` | prototype/native/rtp2-core/src/transfer.rs:333-391 | an encoded record decodes to itself up to 14 steps, fails on depth from 15 to 64, and is refused as too deep beyond |
| `ChunkRecord.TreeDecodes` | prototype/native/rtp2-core/src/transfer.rs:365-383 | every index of a tree has a decodable proof exactly when the tree has at most 16384 leaves |
| `Geometry.ForFile` | prototype/native/rtp2-core/src/object.rs:60-90 | a file is admitted exactly when its chunk size is allowed and it needs at most 2^32 chunks |
| `Geometry.ChunksMeet` | prototype/native/rtp2-core/src/object.rs:156-163 | chunks have positive length and each ends where the next begins, the last at the file's end |
| `Geometry.OffsetInOneChunk` | prototype/native/rtp2-core/src/object.rs:156-163 | every offset of the file is in exactly one chunk |
| `Geometry.CiphertextAddsUp` | prototype/native/rtp2-core/src/object.rs:130-141 | chunk ciphertext lengths sum to the stated size, which fits 64 bits |
| `Geometry.ChunkPlaintextSize` | prototype/native/rtp2-core/src/object.rs:148-154 | inverts the tag addition exactly, and fails exactly for sizes no chunk size gives |
| `Geometry.WindowIsExact` | prototype/native/rtp2-core/src/manifest.rs:345-366 | for allowed chunk sizes and at most 2^32 chunks, the window accepts exactly the wire sizes that some file of that count produces |
| `Geometry.CastIsHarmless` | prototype/native/rtp2-core/src/manifest.rs:345-353 | of what the window accepts, the receiver can use exactly the untruncated allowed sizes |
| `Geometry.CastAccepts` | prototype/native/rtp2-core/src/manifest.rs:351-353 | the truncating cast lets a chunk size past 2^32 through, for an empty object |
| `Control.ControlChannel.Seal` | prototype/native/rtp2-core/src/control.rs:116-150 | the object does one sealing step of the specification |
| `Control.SealedIsSent` | prototype/native/rtp2-core/src/control.rs:116-150 | what goes out is the frame named and numbered as asked, in the wire form of its log entry; sealing is refused only from number 2^32 on |
| `Control.SealedArrives` | prototype/native/rtp2-core/src/control.rs:116-216 | delivered at once to a peer in the same epoch or the one before, it opens to what was sealed |
| `Control.ControlChannel.Open` | prototype/native/rtp2-core/src/control.rs:154-216 | the object does one opening step, and a refused frame changes nothing |
| `Control.ControlChannel.BeginNextEpoch` | prototype/native/rtp2-core/src/control.rs:235-242 | the object moves to the next epoch's keys and restarts its counters; the epoch grows by one except at the last 64-bit number, where it wraps |
| `Control.AcceptedWasSealed` | prototype/native/rtp2-core/src/control.rs:154-216 | an accepted frame was sealed by the peer, header and plaintext |
| `Control.RunKeeps` | prototype/native/rtp2-core/src/control.rs:116-242 | the global invariant survives every interleaving of seals, deliveries of arbitrary frames and rekeys on both sides, short of a rekey in epoch 2^64 - 1 |
| `Control.NoncesNeverRepeat` | prototype/native/rtp2-core/src/control.rs:116-150 | over every run, no two sealed frames share a direction, epoch and counter |
| `Control.RekeyIsSafeIff` | prototype/native/rtp2-core/src/control.rs:235-242 | for a side that has sealed anything, a rekey keeps nonces fresh in every continuation exactly when the epoch is not 2^64 - 1 |
| `Control.LastEpochIsReached` | prototype/native/rtp2-core/src/control.rs:235-242 | that epoch is reached by a run from the start, with a frame sealed |
| `Control.AcceptedInOrder` | prototype/native/rtp2-core/src/control.rs:154-216 | over every run, what a side accepts strictly increases and is a subsequence of what its peer sealed |
| `Control.EpochNeverFalls` | prototype/native/rtp2-core/src/control.rs:154-242 | no run without a rekey in epoch 2^64 - 1 lowers an endpoint's epoch, whatever is delivered |
| `Control.StaleForEver` | prototype/native/rtp2-core/src/control.rs:235-242 | after a one-sided rekey, every frame of an older epoch is refused as stale at any later time |
| `Control.PeerFrameOpens` | prototype/native/rtp2-core/src/control.rs:154-216 | a frame the peer sealed opens exactly when it is of this epoch and not below the watermark, or of the next epoch; in the last epoch nothing opens, since the bound on the number wraps |
| `Control.CountersAreTight` | prototype/native/rtp2-core/src/control.rs:116-242 | over every run frames are numbered from zero in each epoch without a gap, and send counter and watermark are what the logs say |
| `Control.OpensIfNew` | prototype/native/rtp2-core/src/control.rs:154-216 | over every run a frame of the peer opens exactly when it is of this epoch and past the last one accepted in it, or of the next epoch |
| `Rle.WriteLeb128` | prototype/native/rtp2-core/src/bitmap.rs:192-204 | appends the variable-length form of the value |
| `Rle.ReadLeb128` | prototype/native/rtp2-core/src/bitmap.rs:206-231 | the loop with its shift and position computes the specification reader, errors included |
| `Rle.LebReads` | prototype/native/rtp2-core/src/bitmap.rs:192-231 | every 64-bit value written is read back, whatever follows |
| `Rle.LebSpells` | prototype/native/rtp2-core/src/bitmap.rs:192-204 | an integer is written in groups of seven bits, least significant first, as few as can be, each but the last marked |
| `Rle.DecodeIsExact` | prototype/native/rtp2-core/src/bitmap.rs:157-185 | a stream is accepted exactly when its runs parse and sum to the count, and then it is the bits those runs spell |
| `Rle.RoundTrip` | prototype/native/rtp2-core/src/bitmap.rs:133-185 | decoding an encoding gives the bits back |
| `Rle.ClearFirst` | prototype/native/rtp2-core/src/bitmap.rs:133-154 | clear chunks are counted first: so many clear and then so many set ones give those two integers |
| `Rle.ZeroRunMerges` | prototype/native/rtp2-core/src/bitmap.rs:157-185 | an interior run of length zero is accepted, so two streams can mean one bitmap |
| `Rle.LebCanonical` | prototype/native/rtp2-core/src/bitmap.rs:206-231 | an integer that was read has its one encoding exactly when it did not take ten bytes with a last byte above one |
| `Rle.CanonicalIff` | prototype/native/rtp2-core/src/bitmap.rs:133-185 | an accepted stream is what the encoder writes for its bits exactly when no run after the first is zero, its runs are not the single run zero, and no integer lost bits |
| `Rle.TenBytesReadAsZero` | prototype/native/rtp2-core/src/bitmap.rs:206-231 | ten bytes are accepted as the bitmap of no bits, for which the encoder writes none |
| `Rle.GapsAre` | prototype/native/rtp2-core/src/bitmap.rs:111-129 | the maximal clear runs are apart, in order, and cover exactly the clear bits |
| `Bitmap.ChunkBitmap.Get` | prototype/native/rtp2-core/src/bitmap.rs:56-62 | reads the bit, most significant first, or reports the index |
| `Bitmap.MostSignificantFirst` | prototype/native/rtp2-core/src/bitmap.rs:56-62 | a byte is the sum of its bits, bit 0 counting 128 |
| `Bitmap.ChunkBitmap.Set` | prototype/native/rtp2-core/src/bitmap.rs:65-77 | sets one bit, tells whether it was clear, and keeps the count equal to the number of set bits |
| `Bitmap.ChunkBitmap.IsComplete` | prototype/native/rtp2-core/src/bitmap.rs:52-54 | the count tells whether all bits are set |
| `Bitmap.ChunkBitmap.MissingRanges` | prototype/native/rtp2-core/src/bitmap.rs:111-129 | the loop returns the first gaps, up to the limit |
| `Bitmap.ChunkBitmap.EncodeRle` | prototype/native/rtp2-core/src/bitmap.rs:133-154 | the loop ends, despite the turn that consumes no index, and writes the run-length form |
| `Bitmap.FromBytes` | prototype/native/rtp2-core/src/bitmap.rs:86-107 | accepts exactly the right length with clear trailing bits, says which of three errors else, and recounts |
| `Bitmap.DecodeRle` | prototype/native/rtp2-core/src/bitmap.rs:157-185 | the packed decoder agrees with the specification on every input, errors included |
| `Scheduler.Validate` | prototype/native/rtp2-core/src/scheduler.rs:83-103 | accepts exactly sorted, separated, non-empty ranges within the object, at most 1024 of them, and else reports the first fault in order |
| `Scheduler.TakeChunks` | prototype/native/rtp2-core/src/scheduler.rs:398-415 | the loop takes the specified front of the range list |
| `Scheduler.TakeTrims` | prototype/native/rtp2-core/src/scheduler.rs:398-415 | that front names exactly the budget, or all there is, whole ranges first |
| `Scheduler.TakeScattered` | prototype/native/rtp2-core/src/scheduler.rs:418-436 | the loop takes the specified slice of each range, which `ScatterSpreads` describes |
| `Scheduler.ScatterSpreads` | prototype/native/rtp2-core/src/scheduler.rs:418-436 | every range gives a slice of the same size, the budget over the number of ranges, or all of itself; with more ranges than budget the first give one chunk each |
| `Scheduler.IntersectCovers` | prototype/native/rtp2-core/src/scheduler.rs:386-395 | clipping covers exactly what list and window both cover |
| `Scheduler.NextRequestIsSound` | prototype/native/rtp2-core/src/scheduler.rs:309-356 | there is a request exactly when something is missing; it is valid, names missing chunks only and at least one, and fits its byte limit |
| `Scheduler.NextRequestTakes` | prototype/native/rtp2-core/src/scheduler.rs:309-356 | a request is for the plan's object, order and generation, asks for eight chunks for each stream, from the front of the chosen gaps in order or spread over them, and carries their bytes as its limit |
| `Scheduler.StreamsAre` | prototype/native/rtp2-core/src/scheduler.rs:213-238 | the stream count is eight, halved for each round-trip threshold passed and each pressure, down to one, and one on a lossy link |
| `Scheduler.FullRequestIsSound` | prototype/native/rtp2-core/src/scheduler.rs:366-378 | the full request is valid, names missing chunks only, and is empty exactly when nothing is missing; its limit is the bytes of the chunks it names as far as 64 bits go; it names all of them exactly when there are at most 1024 gaps |
| `Scheduler.RequestsComplete` | prototype/native/rtp2-core/src/scheduler.rs:309-356 | delivering each request in full completes the object for any network conditions, in at most one round per missing chunk |
| `Scheduler.FullRoundsAre` | prototype/native/rtp2-core/src/scheduler.rs:366-378 | full requests take exactly the number of gaps over 1024, rounded up |
| `Scheduler.DeliveredCount` | prototype/native/rtp2-core/src/scheduler.rs:366-378 | delivering ranges of missing chunks adds exactly the chunks they name |
| `Interests.InterestList.Add` | prototype/native/rtp2-core/src/scheduler.rs:291-296 | an empty region is ignored; any other is put in its place and the list stays ordered by priority and position |
| `Interests.InsertPlaces` | prototype/native/rtp2-core/src/scheduler.rs:291-296 | that place is behind every region that does not come after it and before every one that does, and nothing else moves: the stable sort after a push |
| `Interests.InsertOrdered` | prototype/native/rtp2-core/src/scheduler.rs:291-296 | the list stays ordered and gains exactly the one region |
| `Interests.BestInterestFirst` | prototype/native/rtp2-core/src/scheduler.rs:309-336 | a request serves the first interest in that order that lacks a chunk among the gaps seen, asks within it only, and is sequential when there is none |
| `RangeCodec.RequestCanonical` | prototype/native/rtp2-core/src/scheduler.rs:127-174 | bytes that decode are the encoding of a request valid for the object |
| `RangeCodec.RequestReads` | prototype/native/rtp2-core/src/scheduler.rs:105-174 | an encoded request decodes to itself exactly for objects it is valid for, and else to its first fault; more than 1024 ranges are refused as too many, or as badly encoded when they do not fit a control object |
| `Chunks.EncryptChunk` | prototype/native/rtp2-core/src/object.rs:190-221 | defined exactly for chunks of the right index and length, and adds the tag |
| `Chunks.DecryptChunk` | prototype/native/rtp2-core/src/object.rs:224-259 | opens only what was sealed for this context and index, at the chunk's length |
| `Chunks.DecryptsBack` | prototype/native/rtp2-core/src/object.rs:190-259 | decrypting an encrypted chunk gives it back |
| `Chunks.OnePlaintext` | prototype/native/rtp2-core/src/object.rs:224-259 | a ciphertext has one plaintext under all secrets and contexts |
| `Chunks.ContextHashBinds` | prototype/native/rtp2-core/src/object.rs:92-115 | the context hash fixes every field of the context |
| `Chunks.CiphertextFixesPlace` | prototype/native/rtp2-core/src/object.rs:167-259 | a ciphertext opens in one context and at one index only, whatever the secrets |
| `Chunks.KeysAndNoncesDiffer` | prototype/native/rtp2-core/src/object.rs:190-221 | under one file's secrets two chunks share a key only as the same index of the same object, and a nonce only in the same transfer too |
| `Sender.CiphertextCache.Insert` | prototype/native/rtp2-core/src/transfer.rs:468-477 | keeps a ciphertext only while the budget lasts; cached bytes never exceed it |
| `Sender.Prepare` | prototype/native/rtp2-core/src/transfer.rs:492-527 | one pass gives every leaf, the plaintext digest and a cache that holds only true ciphertexts |
| `Sender.ProduceRecord` | prototype/native/rtp2-core/src/transfer.rs:739-772 | from the cache or the file, the record is the same |
| `Sender.SendChunks` | prototype/native/rtp2-core/src/transfer.rs:987-1033 | the look-ahead loop emits exactly the frames of a plain loop with neither cache nor look-ahead, over the indices that `IndicesAre` describes, and counts their bytes |
| `Sender.IndicesAre` | prototype/native/rtp2-core/src/transfer.rs:987-991 | the indices sent are exactly those the ranges cover, each once, in ascending order, as many as the ranges name |
| `Sender.RecordPasses` | prototype/native/rtp2-core/src/transfer.rs:739-772 | every record has the length, leaf, proof and plaintext the receiver checks for |
| `Storage.ResumeDb.Open` | prototype/native/rtp2-core/src/resume.rs:245-270 | adopts a stored record exactly when it is readable and matches the object, else starts fresh |
| `Storage.MatchesIff` | prototype/native/rtp2-core/src/resume.rs:60-93 | a record is for an object exactly when nothing but the manifest commitment differs |
| `ResumeCodec.RecordReads` | prototype/native/rtp2-core/src/resume.rs:129-226 | a record, through its checksum and run-length bitmaps, decodes from its encoding to itself exactly when that is at most 8 MiB |
| `ResumeCodec.OpenAdopts` | prototype/native/rtp2-core/src/resume.rs:245-264 | so opening the file a checkpoint wrote adopts exactly that record when it fits and matches the object, else a fresh one |
| `ResumeCodec.RecordFits` | prototype/native/rtp2-core/src/resume.rs:129-162 | run-length bitmaps are short enough that every record of up to about four million chunks fits |
| `ResumeCodec.ChecksumFixesRecord` | prototype/native/rtp2-core/src/resume.rs:160-171 | two files that decode and begin with one checksum are the same bytes |
| `ResumeCodec.DecodedBits` | prototype/native/rtp2-core/src/resume.rs:160-226 | a decoded record has two bitmaps of its chunk count |
| `Storage.ResumeDb.MarkVerified` | prototype/native/rtp2-core/src/resume.rs:294-300 | sets one verified bit, or reports an index out of range |
| `Storage.ResumeDb.ChunkWritten` | prototype/native/rtp2-core/src/resume.rs:311-335 | marks the chunk, and when the interval is reached syncs the data before it commits; no commit follows a failed sync |
| `Storage.ResumeDb.Checkpoint` | prototype/native/rtp2-core/src/resume.rs:369-389 | replaces the record as a whole or leaves it, and resets the pending count only on success |
| `Receiver.AcceptedIsCommitted` | prototype/native/rtp2-core/src/transfer.rs:1331-1358 | a chunk that passes the checks is new, of its length, and the plaintext the root commits to |
| `Receiver.TakenIff` | prototype/native/rtp2-core/src/transfer.rs:1329-1350 | a chunk is taken exactly from the encoding of a record with at most 14 steps, at an index not yet held, whose ciphertext is that plaintext sealed for its place and whose siblings climb to the root |
| `Receiver.HeldIsIgnored` | prototype/native/rtp2-core/src/transfer.rs:1334-1337 | a record that decodes and names a held chunk is ignored, and nothing else is |
| `Receiver.CommittedOnce` | prototype/native/rtp2-core/src/transfer.rs:1344-1350 | a root commits to at most one plaintext at each position, under any secrets |
| `Receiver.StepIsSane` | prototype/native/rtp2-core/src/transfer.rs:1282-1472 | every event keeps the session's shape: the streamed hash is of the file's front, the counts agree, a commit follows a sync, the verdict follows completion |
| `Receiver.HeldAll` | prototype/native/rtp2-core/src/transfer.rs:1312-1317 | the lengths held among the first chunks add up to where those end exactly when all of them are held |
| `ReceiverSafety.StepKeepsTruth` | prototype/native/rtp2-core/src/transfer.rs:1282-1472 | each event keeps: chunks held are on disk as committed, and every record a crash may leave names only committed chunks whose bytes survive; the file is discarded only where no such record names a chunk |
| `ReceiverSafety.WriteKeeps` | prototype/native/rtp2-core/src/transfer.rs:1352-1358 | writing any front of an accepted chunk disturbs no committed chunk, not even a recorded copy of itself |
| `ReceiverRuns.HeldIsCommitted` | prototype/native/rtp2-core/src/transfer.rs:1282-1465 | over every run of frames, interruptions, crashes, reopenings and discards on a destination used for this object, where a discard finds no record that a crash may leave naming a chunk, each chunk a session holds is on disk as the root commits to it, until that session has removed the file |
| `ReceiverRuns.RecordsSurviveCrashes` | prototype/native/rtp2-core/src/resume.rs:311-389 | over the same runs, whatever a crash leaves at any point, the durable bitmap is within the verified one and names only chunks that are whole and committed |
| `ReceiverRuns.RecordLagsLittle` | prototype/native/rtp2-core/src/resume.rs:311-335 | while chunks arrive, the stored bitmap misses fewer chunks than the checkpoint interval |
| `ReceiverRuns.SuccessIsTheFile` | prototype/native/rtp2-core/src/transfer.rs:1427-1472 | success, after any history of the destination, leaves the file whose digest was claimed and has counted all its bytes |
| `ReceiverRuns.FinalDigestIsTheFiles` | prototype/native/rtp2-core/src/transfer.rs:1433-1448 | at the verdict the digest used, streamed or read back, is the digest of the file, for every arrival order and resumed bitmap |
| `ReceiverRuns.ProgressNeverFalls` | prototype/native/rtp2-core/src/transfer.rs:1312-1395 | within an attempt the verified byte count never falls and is the sum of held lengths |
| `ReceiverRuns.HonestNeverDiscards` | prototype/native/rtp2-core/src/transfer.rs:1427-1465 | for an honest object no run reaches the discarding of the file, and holding all chunks already means holding the sender's file |
| `ReceiverRuns.HonestRecordAccepted` | prototype/native/rtp2-core/src/transfer.rs:1331-1350 | an honest record is accepted exactly when its proof has at most 14 steps |
| `ReceiverRuns.LargeObjectsNeverFinish` | prototype/native/rtp2-core/src/transfer.rs:357-391 | an object of more than 16384 chunks is never completed, over any history and whoever sends it |
| `ReceiverProgress.CanFinish` | prototype/native/rtp2-core/src/transfer.rs:1282-1472 | an honest object of at most 16384 chunks can be finished from every receiving state |
| `ReceiverProgress.DiscardIsSafeIff` | prototype/native/rtp2-core/src/transfer.rs:1455-1465 | after a discard, every way the attempts for the object can go on, stale content of the removed file included, keeps what they hold standing, exactly when no record that a crash may leave named a chunk |
| `ReceiverProgress.GoneFileBreaksIff` | prototype/native/rtp2-core/src/transfer.rs:1455-1465 | with no stale content: a crash that brings the record back and leaves no file makes the next attempt hold a chunk it does not have exactly for the named chunks whose committed bytes are not all zero |
| `ReceiverProgress.FalseDigestBreaks` | prototype/native/rtp2-core/src/transfer.rs:1455-1465 | for every honest root of two or more chunks and a false digest, some run ends in a new attempt that holds a chunk its file does not have; its crash leaves no file at all unless the first chunk is all zeros |
| `ReceiveFile.ReadBack` | prototype/native/rtp2-core/src/transfer.rs:1436-1447 | the buffered read-back computes the digest of the whole file |
| `ReceiveFile.HandleChunk` | prototype/native/rtp2-core/src/transfer.rs:1329-1413 | one chunk frame, with any outcome of its system calls and of the route check, is a run of the machine and ends as `AfterChunk` says, error by error; a refused frame writes nothing, and progress is reported exactly for a chunk verified, written and on an admitted route, with the true sums |
| `ReceiveFile.Finish` | prototype/native/rtp2-core/src/transfer.rs:1415-1472 | the end of the stream is a run of the machine, has the result `AtEnd` says for every case, and leaves the disk it says: a checkpoint when incomplete, file and record removed on a wrong digest, the record removed on success |
| `ReceiveFile.Receive` | prototype/native/rtp2-core/src/transfer.rs:1264-1472 | the whole loop over any frames is a run of the machine and its result is exactly `Verdict`, which `SucceedsIff` describes; progress reports come one for each chunk taken, stay within the totals, reach both together and end there on success |
| `Outcomes.WalkIff` | prototype/native/rtp2-core/src/transfer.rs:1325-1413 | frames are taken exactly while each names a chunk of the object and the first to bring a missing one is a right record whose write, route and, every 64th time, checkpoint go well |
| `Outcomes.SucceedsIff` | prototype/native/rtp2-core/src/transfer.rs:1325-1472 | an attempt succeeds exactly when a frame ends the stream, all before it are taken, they bring every missing chunk, what that assembles has the claimed digest, the last sync succeeds and a record can be removed |
| `Outcomes.FailsIff` | prototype/native/rtp2-core/src/transfer.rs:1415-1462 | it ends as incomplete exactly when frames that are all taken leave a chunk missing and a record, if kept, is checkpointed; and with a digest mismatch exactly when all is brought and synced and has another digest |
| `Transfer.SentLands` | prototype/native/rtp2-core/src/transfer.rs:987-1413 | what a sender ships for valid ranges of an honest object is all taken, and exactly what was held or asked for is then held |
| `Transfer.ShippedEnds` | prototype/native/rtp2-core/src/transfer.rs:987-1472 | and the attempt ends with the claimed digest exactly when the ranges covered all that was missing, else as incomplete |
| `Transfer.OneAttempt` | prototype/native/rtp2-core/src/transfer.rs:1282-1472 | from a destination used for this object, with no failures, one full request completes an honest object of at most 16384 chunks exactly when at most 1024 gaps were left |
| `Transfer.RequestArrives` | prototype/native/rtp2-core/src/transfer.rs:1288-1306 | the full request reaches the sender as it was made |
| `Messages.ClientHelloCanonical` | prototype/native/rtp2-core/src/handshake.rs:186-259 | a hello that decodes is the encoding of what was decoded |
| `Messages.ServerHelloCanonical` | prototype/native/rtp2-core/src/handshake.rs:283-362 | a reply that decodes re-encodes to the same bytes, signature included |
| `Messages.ClientFinishCanonical` | prototype/native/rtp2-core/src/handshake.rs:382-413 | a finish that decodes re-encodes to the same bytes |
| `Messages.ServerFinishCanonical` | prototype/native/rtp2-core/src/handshake.rs:417-435 | a final message that decodes is the encoding of its MAC |
| `Messages.ClientHelloReads` | prototype/native/rtp2-core/src/handshake.rs:152-259 | every well-sized hello decodes from its encoding to itself |
| `Messages.ServerHelloReads` | prototype/native/rtp2-core/src/handshake.rs:283-362 | every well-sized signed reply decodes from its encoding to itself |
| `Messages.ClientFinishReads` | prototype/native/rtp2-core/src/handshake.rs:382-413 | every well-sized finish decodes from its encoding to itself |
| `Messages.ClientHelloPeels` | prototype/native/rtp2-core/src/handshake.rs:152-184 | hello encodings are prefix-free |
| `Messages.ServerHelloPeels` | prototype/native/rtp2-core/src/handshake.rs:283-308 | reply encodings are prefix-free, with and without the signature, and the two forms never meet |
| `Agreement.Th1Splits` | prototype/native/rtp2-core/src/handshake.rs:603-604 | equal TH1 means the same hello and the same reply up to its signature |
| `Agreement.Th2Splits` | prototype/native/rtp2-core/src/handshake.rs:620-622 | equal TH2 means the same hello, signed reply and ciphertext |
| `Agreement.SaltSplits` | prototype/native/rtp2-core/src/handshake.rs:455-464 | equal salts mean the same three messages up to the reply's signature |
| `Agreement.IkmSplits` | prototype/native/rtp2-core/src/handshake.rs:466-471 | the key material splits into its three secrets in one way |
| `Agreement.TranscriptsMatch` | prototype/native/rtp2-core/src/handshake.rs:570-883 | behind an accepted ServerFinish both sides hold keys of one schedule over one transcript |
| `Handshake.Initiator.HandleServerHello` | prototype/native/rtp2-core/src/handshake.rs:570-649 | takes the state out, puts one back only on success, and does one step of the specification, checks in order |
| `Handshake.Initiator.HandleServerFinish` | prototype/native/rtp2-core/src/handshake.rs:652-687 | yields keys exactly for the expected MAC in the waiting state |
| `Handshake.Responder.HandleClientHello` | prototype/native/rtp2-core/src/handshake.rs:731-818 | does one step of the specification, the replay cache's update included |
| `Handshake.Responder.HandleClientFinish` | prototype/native/rtp2-core/src/handshake.rs:821-883 | does one step of the specification: signature, secrets and MAC in order |
| `Handshake.VerifyIs` | prototype/native/rtp2-core/src/handshake.rs:603-608 | a signature verifies exactly when both halves are the device's signatures of the message |
| `Authentication.ReplyAcceptedIff` | prototype/native/rtp2-core/src/handshake.rs:570-649 | an initiator answers exactly a well-formed reply of this version, mode, suite and protocol from the endpoint it dialled, signed by the keys in it over this initiator's hello and the reply without its signature |
| `Authentication.AgreesIff` | prototype/native/rtp2-core/src/handshake.rs:491-499 | X25519 gives a secret with every public key, and with another point unless that secret is zero |
| `Authentication.HelloAcceptedIff` | prototype/native/rtp2-core/src/handshake.rs:731-818 | a responder answers exactly a well-formed hello of this mode, suite and protocol from the endpoint it sees, at most five minutes off and not sent lately |
| `Authentication.ReplyIsSigned` | prototype/native/rtp2-core/src/handshake.rs:731-818 | and its reply is signed by this device over that hello, at the lower of the two minor versions |
| `Authentication.FinishAcceptedIff` | prototype/native/rtp2-core/src/handshake.rs:821-883 | a responder confirms exactly a well-formed finish signed by the client's certificate over this exchange, with the MAC that the agreed secrets give |
| `Authentication.SignatureFixes` | prototype/native/rtp2-core/src/handshake.rs:603-608 | a signature is of one message and under one pair of keys |
| `Agreement.SessionsAgree` | prototype/native/rtp2-core/src/handshake.rs:570-883 | an initiator that accepts the ServerFinish of some responder has the same prk, TH2 and four keys, and each names the other's bundle and endpoint, whatever messages reached the two |
| `Agreement.SessionsSawTheSame` | prototype/native/rtp2-core/src/handshake.rs:570-883 | and both hellos arrived as they were sent |
| `Agreement.InitiatorEndsOnce` | prototype/native/rtp2-core/src/handshake.rs:570-687 | after a refusal, or once keys are out, an initiator refuses every further call |
| `Agreement.ResponderEndsOnce` | prototype/native/rtp2-core/src/handshake.rs:731-883 | after a refusal, or once keys are out, a responder refuses every further call |
| `Agreement.UndisturbedRunCompletes` | prototype/native/rtp2-core/src/handshake.rs:532-883 | messages carried unaltered between two devices complete both sides, for every choice of randomness |
| `Session.EndsOfOneChannel` | prototype/native/rtp2-core/src/transfer.rs:826-832 | an initiator and the responder whose ServerFinish it accepted open the two ends of one control channel, under the control keys the handshake gave them |
| `Session.KeysAreSeparate` | prototype/native/rtp2-core/src/handshake.rs:473-481 | the seven secrets of one session, the extraction output included, are all different |
| `Session.EpochZeroKeys` | prototype/native/rtp2-core/src/control.rs:268-274 | the channel's first epoch has exactly the handshake's control keys |
| `ReplayCache.Cache.CheckAndInsert` | prototype/native/rtp2-core/src/handshake.rs:100-115 | set and queue hold the same keys without repeats, and the queue moves as specified |
| `ReplayCache.HoldsRecent` | prototype/native/rtp2-core/src/handshake.rs:94-116 | over every run a key is accepted exactly when it is not among the last 4096 accepted |
| `ReplayCache.NearbyAcceptancesDiffer` | prototype/native/rtp2-core/src/handshake.rs:94-116 | any 4097 acceptances in a row are of different keys |
| `ReplayCache.OldKeysReturn` | prototype/native/rtp2-core/src/handshake.rs:94-116 | and no further: a key 4097 acceptances old is accepted again |
| `Manifest.Validate` | prototype/native/rtp2-core/src/manifest.rs:320-369 | accepts exactly the manifests with one primary object, distinct ids, plausible sizes, a lifetime and the one scheme |
| `Manifest.CountPrimaries` | prototype/native/rtp2-core/src/manifest.rs:330-339 | the count is one exactly when one object is primary |
| `Manifest.ValidObjectsAreProducible` | prototype/native/rtp2-core/src/manifest.rs:345-366 | each object of a valid manifest, within the bounds of an object context, has the wire size of some file |
| `Manifest.DecodedShape` | prototype/native/rtp2-core/src/manifest.rs:122-317 | bytes that decode are a known and valid manifest's encoding with nothing but whole extension maps added, on objects or at the top |
| `Manifest.ReencodesIffPlain` | prototype/native/rtp2-core/src/manifest.rs:253-317 | decoded bytes re-encode to themselves exactly when there was no extension |
| `Manifest.ExtensionIsDropped` | prototype/native/rtp2-core/src/manifest.rs:292-301 | every valid manifest is also decoded from other bytes: the commitment binds fields, not bytes |
| `Manifest.ManifestReads` | prototype/native/rtp2-core/src/manifest.rs:122-317 | an encoding, with any extension maps on objects and at the top, decodes to the manifest exactly when it fits and is valid, and names the fault else |
| `Manifest.DecodesExactly` | prototype/native/rtp2-core/src/manifest.rs:122-317 | the decoder returns a manifest for exactly the bytes that carry it, known and valid, with extension maps or none |
| `Manifest.EncodedReads` | prototype/native/rtp2-core/src/manifest.rs:230-317 | what the encoder writes is read back exactly for known and valid manifests |
| `CborValues.ExtensionSkips` | prototype/native/rtp2-core/src/manifest.rs:175-211 | an extension map is skipped whole, whatever follows it |
| `CborValues.SkippedIsExtension` | prototype/native/rtp2-core/src/manifest.rs:175-211 | and what is skipped is such a map |
| `Manifest.EncodeInjective` | prototype/native/rtp2-core/src/manifest.rs:230-251 | encodings of different manifests differ |
| `Offer.SigningHashBinds` | prototype/native/rtp2-core/src/offer.rs:146-201 | equal signing hashes force equal manifest, scope, envelopes, providers, sender and mode |
| `Offer.CommitmentSplits` | prototype/native/rtp2-core/src/manifest.rs:377-383 | equal commitments force equal manifests |
| `Offer.CreatedVerifies` | prototype/native/rtp2-core/src/offer.rs:235-274 | a created offer carries what it was created from and verifies for its scope exactly until it expires, if its manifest is of the known version and suite, and is refused as badly encoded else |
| `Offer.VerifiedIff` | prototype/native/rtp2-core/src/offer.rs:406-446 | a recipient accepts exactly an offer for its scope whose manifest decodes and has not expired, with the sealed manifest it names, signed by the sender over all of it |
| `Offer.CreatesIff` | prototype/native/rtp2-core/src/offer.rs:203-274 | an offer can be created exactly for a valid manifest, 1 to 64 envelopes, at most 32 providers and the sealed manifest it names |
| `Offer.SignatureFixesOffer` | prototype/native/rtp2-core/src/offer.rs:406-446 | two offers that verify under one signature are of the same content, sealed manifest and nonce included |
| `Offer.OfferCanonical` | prototype/native/rtp2-core/src/offer.rs:320-401 | bytes that decode as an offer are its encoding |
| `Offer.OfferInjective` | prototype/native/rtp2-core/src/offer.rs:276-318 | encodings of different offers differ |
| `Offer.OfferReads` | prototype/native/rtp2-core/src/offer.rs:276-401 | an offer decodes from its encoding exactly when it is within the decoder's limits and fits a control object, and is refused else |
| `Offer.CreatedArrives` | prototype/native/rtp2-core/src/offer.rs:235-401 | creation checks no address length: a created offer decodes at the recipient exactly when its scope and addresses have at most 512 bytes and it fits |
| `Offer.LongScopeIsLost` | prototype/native/rtp2-core/src/offer.rs:235-401 | an offer created for a scope of more than 512 bytes verifies, and no recipient can decode it |
| `Offer.LongScopeExists` | prototype/native/rtp2-core/src/offer.rs:235-401 | there is one, with a scope of 513 bytes |
| `Events.EventQueue.EvictOne` | prototype/native/rtp2-core/src/events.rs:226-239 | the search finds the first droppable event, else the front, and the loss is counted up to saturation |
| `Events.EventQueue.Push` | prototype/native/rtp2-core/src/events.rs:255-271 | coalesces, makes room and appends as specified |
| `Events.EventQueue.Poll` | prototype/native/rtp2-core/src/events.rs:276-294 | looks, reporting losses before any event and then the front, and looks again after each wake-up until something is there or time is up |
| `Events.WaitsForTheFirst` | prototype/native/rtp2-core/src/events.rs:276-294 | a waiting poll returns what the first look that finds anything finds, and nothing exactly when every look up to the deadline finds no event and no loss |
| `Events.RunKeepsInvariant` | prototype/native/rtp2-core/src/events.rs:226-294 | over every run: at most 1024 queued; delivered then queued events are pushes in order; every push is delivered, queued, lost, or superseded by a later progress event of its transfer and role; the losses that the reports handed over speak of, with those pending, are the losses there were up to saturation; no neighbours repeat a progress |
| `Events.TerminalsGoLast` | prototype/native/rtp2-core/src/events.rs:226-239 | a completion, failure or cancellation is lost only when 1024 of them are queued, and then the oldest |
| `Events.TerminalsSurvive` | prototype/native/rtp2-core/src/events.rs:226-271 | in every run with fewer than 1024 of them, however many other events, none is lost |
| `Store.DeviceStore.StoreResumption` | prototype/native/rtp2-core/src/store.rs:518-536 | rewrites the file with the clamped entry, or leaves it; unless the directory is then synced, a crash may still leave an earlier list |
| `Store.DeviceStore.TakeResumption` | prototype/native/rtp2-core/src/store.rs:544-575 | removes the entry from the file before deciding whether to return it; unless the directory is then synced, a crash may still leave a list with it |
| `Store.SecretsAreSingleUse` | prototype/native/rtp2-core/src/store.rs:240-575 | over every run of stores, takes and crashes in which a directory sync, of the take or of a later rewrite, comes between handing a secret out and the next crash, no stored secret is handed out twice |
| `Store.SecretsFit` | prototype/native/rtp2-core/src/store.rs:518-575 | over every run, whatever crashes leave: a secret goes only to its own id, peer, suite and major, before an expiry at most a day after creation, and every list the file may hold has at most 64 entries under different ids |
| `Store.ReuseIff` | prototype/native/rtp2-core/src/store.rs:240-287 | once a secret is handed out, some run hands it out again exactly when a list that a crash may leave still holds it |
| `Store.CrashReuses` | prototype/native/rtp2-core/src/store.rs:240-287 | that happens for every secret that is valid when taken: stored, taken with the directory not synced, brought back by a crash, taken again |
| `Store.TakeConsumes` | prototype/native/rtp2-core/src/store.rs:544-575 | a take that rewrites the file leaves no entry with the id, matched or not, and once synced no crash brings one back |
| `Store.StoredIsTaken` | prototype/native/rtp2-core/src/store.rs:518-575 | a secret taken right after it was stored is handed out exactly when it was kept, is asked for by its own peer, suite and major, and neither its expiry nor a day since creation has passed |
| `Store.NewSecretKept` | prototype/native/rtp2-core/src/store.rs:518-536 | a new secret is kept unless 64 live ones are strictly newer, and then it is the one dropped |
| `Store.NewSecretDropped` | prototype/native/rtp2-core/src/store.rs:518-536 | a run of 65 stores in which the last, still valid, is dropped at once |

## Left out

- Cryptographic primitives, the post-quantum providers and key derivation internals: symbolic constructors stand for them. ML-KEM decapsulation never fails here, and which foreign X25519 points give the zero secret is a parameter.
- QUIC streams, frame headers and socket reads, timeouts, task scheduling: the network is any supplier of frames.
- The resumed handshake (`ResumptionHello`, `resumption_keys`): the same shapes as the full one, with fewer messages.
- Key envelopes' contents, the private manifest's fields, retention and key policy, tickets and base64url: flat field lists and standard packing.
- The sealed files of the device store: their encoding is left out; a rewrite fails, or renames with or without a directory sync, as a parameter.
- Event encoding, `route.rs`, `keystore.rs`, `capability.rs`, the C interface, the Go side, the command line: easy members or foreign calls.
- File permissions, symbolic links, zeroization, constant-time comparison: not functional properties.
- `recommended_chunk_size`, `rekey_due`, `chunk_total`: single expressions.
- Control.RunKeeps: leaves out a rekey in epoch 2^64 - 1, after which the invariant is false; `Control.RekeyIsSafeIff` says it is exactly there.
- Merkle.LargestPowerOfTwoBelow: computes on unbounded integers; `BuilderLoopEnds` says for which counts a 64-bit word does the same.
- Events.EventQueue.Poll: the clock is a parameter, the number of wake-ups before the deadline.
- Sender.SendChunks: asks for a file unchanged since it was prepared, and models the look-ahead tasks as a queue in order, not their parallel execution.
- Storage.ResumeDb.Open: whether the file can be read stays a parameter, since a disk can also lose it; `ResumeCodec.OpenAdopts` says when its bytes decode.
- Store.DeviceStore.StoreResumption: numbers each call, which the source does not, to tell stored secrets apart.
- ReceiveFile.HandleChunk: holds the bitmap as a sequence of bits; the packed bitmap is proved against the same sequence in `Bitmap`. When the route is refused is a parameter.
- Messages, Manifest, Offer and RangeCodec decoders: functions on what remains to be read; `CborStreams` relates such reading to the mutable readers, and `ChunkRecord.DecodeRecord` is written with those.
- Scheduler.NextRequestIsSound: interest priority is relative to the first 1024 gaps, as in the source.
- Scheduler.NextRequestTakes: for chunk sizes from 1 byte to below 2^58; every object has one of seven sizes far below, and beyond it the byte limit wraps.
