/**
 The receiving side (`transfer.rs`, `resume.rs`) as a machine of small steps: opening, chunk
 records as they arrive, syncs, checkpoints, the final check, and an interruption or a crash
 between any two of them.
 */
module Receiver {
  import opened Octets
  import opened Merkle
  import opened Geometry
  import opened Chunks
  import opened ChunkRecord
  import opened Storage
  import Sender

  datatype TransferError = BadRecord | ChunkOutOfRange | LengthMismatch | ProofRejected | AeadRejected

  /** What the authenticated offer and envelope fix for one attempt. */
  datatype Job = Job(ctx: ObjectContext, schedule: Schedule, root: Hash, digest: Bytes, commitment: Bytes) {
    function Identity(): ObjectIdentity {
      ObjectIdentity(ctx.transferId, ctx.objectId, commitment, root, ctx.chunkCount, ctx.ChunkCiphertextSize(),
                     ctx.size)
    }
  }

  // --- One chunk record ---

  /** The checks on an arriving record, in order. None for a chunk that is already held. */
  function Check(job: Job, have: seq<bool>, payload: Bytes): Result<Option<(nat, Bytes)>, TransferError>
    requires job.ctx.Admitted() && |have| == job.ctx.chunkCount
  {
    var decoded := Decode(payload);
    if decoded.Err? then Err(TransferError.BadRecord)
    else
      var r := decoded.value;
      if r.index >= job.ctx.chunkCount then Err(ChunkOutOfRange)
      else if have[r.index] then Ok(None)
      else if |r.ciphertext| != job.ctx.Len(r.index) + TAG_LEN then Err(LengthMismatch)
      else if !Proves(LeafHash(r.index, r.ciphertext), r.index, job.ctx.chunkCount, r.proof, job.root)
          then Err(ProofRejected)
      else
        var plaintext := DecryptChunk(job.schedule, job.ctx, r.index, r.ciphertext);
        if plaintext.Err? then Err(AeadRejected) else Ok(Some((r.index, plaintext.value)))
  }

  /** A plaintext stands at a position under a root: some ciphertext proven there decrypts to it. */
  ghost predicate Committed(root: Hash, count: nat, index: nat, plaintext: Bytes) {
    exists ciphertext, proof, s, ctx :: CommittedBy(root, count, index, plaintext, ciphertext, proof, s, ctx)
  }

  ghost predicate CommittedBy(root: Hash, count: nat, index: nat, plaintext: Bytes,
                              ciphertext: Bytes, proof: seq<ProofStep>, s: Schedule, ctx: ObjectContext) {
    && Proves(LeafHash(index, ciphertext), index, count, proof, root)
    && ctx.Admitted() && DecryptChunk(s, ctx, index, ciphertext) == Ok(plaintext)
  }

  /** A record is for this chunk of the object: of its length, sealed for its place, and proven by the root. */
  ghost predicate Fits(job: Job, r: Record, plaintext: Bytes)
    requires job.ctx.Admitted()
  {
    && r.index < job.ctx.chunkCount && |plaintext| == job.ctx.Len(r.index)
    && r.ciphertext == Seal(ChunkKey(job.schedule, job.ctx, r.index), ChunkNonce(job.schedule, job.ctx, r.index),
                            ChunkAad(job.ctx, r.index), plaintext)
    && DirectionsOf(r.proof) == Directions(job.ctx.chunkCount, r.index)
    && Climb(LeafHash(r.index, r.ciphertext), r.proof) == job.root
  }

  /** A chunk is taken exactly from the encoding of a record that fits, at an index not yet held. */
  lemma TakenIff(job: Job, have: seq<bool>, payload: Bytes, index: nat, plaintext: Bytes)
    requires job.ctx.Admitted() && |have| == job.ctx.chunkCount
    ensures Check(job, have, payload) == Ok(Some((index, plaintext))) <==>
            exists r :: && Encodable(r) && payload == Encode(r) && |r.proof| <= DECODABLE_STEPS
                        && r.index == index && Fits(job, r, plaintext) && !have[index]
  {
    hide Encode, Decode, AllowedChunkSize, LeafHash, Directions, DirectionsOf, Climb, DecryptChunk, Fits;
    forall r: Record | Encodable(r)
      ensures payload == Encode(r) && |r.proof| <= DECODABLE_STEPS <==> Decode(payload) == Ok(r)
    {
      RecordDecodes(payload, r);
    }
    if Decode(payload).Ok? {
      RecordCanonical(payload);
      var r := Decode(payload).value;
      FitsIs(job, r, plaintext);
    }
  }

  lemma RecordDecodes(payload: Bytes, r: Record)
    requires Encodable(r)
    ensures payload == Encode(r) && |r.proof| <= DECODABLE_STEPS <==> Decode(payload) == Ok(r)
  {
    hide Encode, Decode, Encodable;
    RecordReads(r);
    if Decode(payload) == Ok(r) {
      RecordCanonical(payload);
    }
  }

  lemma FitsIs(job: Job, r: Record, plaintext: Bytes)
    requires job.ctx.Admitted()
    ensures Fits(job, r, plaintext) <==>
            && r.index < job.ctx.chunkCount && |r.ciphertext| == job.ctx.Len(r.index) + TAG_LEN
            && Proves(LeafHash(r.index, r.ciphertext), r.index, job.ctx.chunkCount, r.proof, job.root)
            && DecryptChunk(job.schedule, job.ctx, r.index, r.ciphertext) == Ok(plaintext)
  {
    hide AllowedChunkSize, LeafHash, Directions, DirectionsOf, Climb, DecryptChunk, ChunkKey, ChunkNonce, ChunkAad,
         Seal, ObjectContext.Len;
    if r.index < job.ctx.chunkCount && |plaintext| == job.ctx.Len(r.index) {
      DecryptsBack(job.schedule, job.ctx, r.index, plaintext);
    }
  }

  /** A record for a chunk that is held is ignored, whatever else it says; nothing else is. */
  lemma HeldIsIgnored(job: Job, have: seq<bool>, payload: Bytes)
    requires job.ctx.Admitted() && |have| == job.ctx.chunkCount
    ensures Check(job, have, payload) == Ok(None) <==>
            exists r :: && Encodable(r) && payload == Encode(r) && |r.proof| <= DECODABLE_STEPS
                        && r.index < |have| && have[r.index]
  {
    hide Encode, Decode, AllowedChunkSize, LeafHash, Proves, DecryptChunk;
    forall r: Record | Encodable(r)
      ensures payload == Encode(r) && |r.proof| <= DECODABLE_STEPS <==> Decode(payload) == Ok(r)
    {
      RecordDecodes(payload, r);
    }
    if Decode(payload).Ok? {
      RecordCanonical(payload);
    }
  }

  /** A root commits to at most one plaintext at each position, under any secrets. */
  lemma CommittedOnce(root: Hash, count: nat, index: nat, p: Bytes, q: Bytes)
    requires count < U64_LIMIT && Committed(root, count, index, p) && Committed(root, count, index, q)
    ensures p == q
  {
    hide Proves, DecryptChunk, LeafHash;
    var c, proof, s, ctx :| CommittedBy(root, count, index, p, c, proof, s, ctx);
    var c', proof', s', ctx' :| CommittedBy(root, count, index, q, c', proof', s', ctx');
    ProvesInRange(LeafHash(index, c), index, count, proof, root);
    ProofsAreUnique(LeafHash(index, c), proof, LeafHash(index, c'), proof', index, count, root);
    LeafHashInjective(index, c, index, c');
    OnePlaintext(s, ctx, index, s', ctx', index, c);
  }

  lemma ProvesInRange(leaf: Hash, index: nat, count: nat, proof: seq<ProofStep>, root: Hash)
    requires Proves(leaf, index, count, proof, root)
    ensures index < count && |proof| == |Directions(count, index)|
  {
    assert |DirectionsOf(proof)| == |proof|;
  }

  /** An accepted chunk is new, has its chunk's length and is what the root commits to. */
  lemma AcceptedIsCommitted(job: Job, have: seq<bool>, payload: Bytes)
    requires job.ctx.Admitted() && |have| == job.ctx.chunkCount
    requires Check(job, have, payload).Ok? && Check(job, have, payload).value.Some?
    ensures var (index, plaintext) := Check(job, have, payload).value.value;
            && index < job.ctx.chunkCount && !have[index]
            && |plaintext| == job.ctx.Len(index)
            && Committed(job.root, job.ctx.chunkCount, index, plaintext)
            && |Directions(job.ctx.chunkCount, index)| <= DECODABLE_STEPS
  {
    hide Decode, Proves, LeafHash, DecryptChunk, AllowedChunkSize;
    var r := Decode(payload).value;
    var plaintext := Check(job, have, payload).value.value.1;
    RecordCanonical(payload);
    ProvesInRange(LeafHash(r.index, r.ciphertext), r.index, job.ctx.chunkCount, r.proof, job.root);
    assert CommittedBy(job.root, job.ctx.chunkCount, r.index, plaintext, r.ciphertext, r.proof, job.schedule, job.ctx);
  }

  /** An accepted chunk fits the file at its chunk's place. */
  lemma AcceptedFits(job: Job, have: seq<bool>, payload: Bytes)
    requires job.ctx.Admitted() && |have| == job.ctx.chunkCount
    requires Check(job, have, payload).Ok? && Check(job, have, payload).value.Some?
    ensures var (index, plaintext) := Check(job, have, payload).value.value;
            index < job.ctx.chunkCount && job.ctx.Start(index) + |plaintext| <= job.ctx.size
  {
    hide Check, AllowedChunkSize, Directions, Committed;
    AcceptedIsCommitted(job, have, payload);
    SliceInside(job.ctx, Check(job, have, payload).value.value.0);
  }

  // --- The machine ---

  const CHECKPOINT_INTERVAL := 64

  datatype Db = Db(record: ResumeRecord, pending: nat)

  /** Why a sync is due, and so what follows it. */
  datatype Purpose = KeepReceiving | GiveUp | Conclude

  datatype Phase = Receiving | SyncDue(purpose: Purpose) | CommitDue(purpose: Purpose) | Deciding | Discarding
      | Discarded | Finishing | Done

  datatype Session = Session(job: Job, db: Option<Db>, have: seq<bool>, streaming: Option<(Bytes, nat)>,
                             verifiedBytes: nat, phase: Phase)

  datatype World = World(disk: Disk, session: Option<Session>)

  datatype Event =
    | Begin(job: Job, useDb: bool, readable: bool)
    | Chunk(payload: Bytes)
    | TornChunk(payload: Bytes, written: nat)
    | StreamEnd
    | SyncFile
    | CommitRecord(directorySynced: bool)
    | Decide
    | DiscardFile
    | ForgetRecord
    | Interrupt
    | Crash(left: Bytes, stored: Option<ResumeRecord>)

  ghost predicate Complete(have: seq<bool>) {
    forall i :: 0 <= i < |have| ==> have[i]
  }

  /** When an event can happen. Any failing system call, refused frame or lost peer is an Interrupt. */
  ghost predicate Enabled(w: World, e: Event)
    requires Sane(w)
  {
    match e
    case Begin(job, _, _) => w.session.None? && job.ctx.Admitted()
    case Chunk(payload) =>
      w.session.Some? && w.session.value.phase == Receiving &&
          Check(w.session.value.job, w.session.value.have, payload).Ok?
    case TornChunk(payload, written) =>
      && w.session.Some? && w.session.value.phase == Receiving
      && var r := Check(w.session.value.job, w.session.value.have, payload);
         r.Ok? && r.value.Some? && written <= |r.value.value.1|
    case StreamEnd => w.session.Some? && w.session.value.phase == Receiving
    case SyncFile => w.session.Some? && w.session.value.phase.SyncDue?
    case CommitRecord(_) => w.session.Some? && w.session.value.phase.CommitDue?
    case Decide => w.session.Some? && w.session.value.phase == Deciding
    case DiscardFile => w.session.Some? && w.session.value.phase == Discarding
    case ForgetRecord => w.session.Some? && w.session.value.phase in {Discarding, Discarded, Finishing}
    case Interrupt => w.session.Some?
    case Crash(left, stored) => w.disk.MayCrashTo(left, stored)
  }

  /** Total length of the chunks held among the first `n`. */
  function HeldBytes(ctx: ObjectContext, have: seq<bool>, n: nat): nat
    requires ctx.Admitted() && |have| == ctx.chunkCount && n <= ctx.chunkCount
  {
    if n == 0 then 0 else HeldBytes(ctx, have, n - 1) + if have[n - 1] then ctx.Len(n - 1) else 0
  }

  function BeginSession(disk: Disk, job: Job, useDb: bool, readable: bool): Session
    requires job.ctx.Admitted() && disk.Valid()
  {
    var record := Adopt(if readable then disk.record else None, job.Identity());
    var have := if useDb then record.durable else seq(job.ctx.chunkCount, _ => false);
    Session(job, if useDb then Some(Db(record, 0)) else None, have, Some(([], 0)),
            HeldBytes(job.ctx, have, job.ctx.chunkCount), Receiving)
  }

  /** The running hash follows chunks in strict order and is given up at the first gap. */
  function Stream(streaming: Option<(Bytes, nat)>, index: nat, plaintext: Bytes): Option<(Bytes, nat)> {
    if streaming.Some? && streaming.value.1 == index then Some((streaming.value.0 + plaintext, index + 1)) else None
  }

  /** In-memory effects of an accepted chunk; a sync is due once enough chunks are pending. */
  function Accept(s: Session, index: nat, plaintext: Bytes): Session
    requires index < |s.have|
    requires s.db.Some? ==> |s.db.value.record.durable| == |s.have| == |s.db.value.record.verified|
  {
    var db := if s.db.None? then None
              else
                var r := s.db.value.record;
                Some(Db(r.(verified := r.verified[index := true], durable := r.durable[index := true]),
                        s.db.value.pending + if r.durable[index] then 0 else 1));
    var due := db.Some? && db.value.pending >= CHECKPOINT_INTERVAL;
    Session(s.job, db, s.have[index := true], Stream(s.streaming, index, plaintext), s.verifiedBytes + |plaintext|,
            if due then SyncDue(KeepReceiving) else Receiving)
  }

  function FinalDigest(s: Session, file: Bytes): Bytes {
    if s.streaming.Some? && s.streaming.value.1 == s.job.ctx.chunkCount
    then Sender.Digest(s.streaming.value.0)
    else Sender.Digest(file)
  }

  function AfterStreamEnd(s: Session, complete: bool): Option<Session> {
    if complete then Some(s.(phase := SyncDue(Conclude)))
    else if s.db.Some? then Some(s.(phase := SyncDue(GiveUp)))
    else None
  }

  function AfterSync(s: Session): Session
    requires s.phase.SyncDue?
  {
    s.(phase := if s.phase.purpose == Conclude then Deciding else CommitDue(s.phase.purpose))
  }

  function AfterCommit(s: Session): Option<Session>
    requires s.phase.CommitDue? && s.db.Some?
  {
    if s.phase.purpose == GiveUp then None
    else Some(s.(db := Some(s.db.value.(pending := 0)), phase := Receiving))
  }

  /** The shape every session has, whatever happened before it began. */
  ghost predicate Sane(w: World) {
    && w.disk.Valid()
    && (w.session.Some? ==> SaneSession(w.session.value, w.disk))
  }

  ghost predicate SaneSession(s: Session, disk: Disk) {
    && s.job.ctx.Admitted()
    && |s.have| == s.job.ctx.chunkCount
    && (s.phase != Discarded ==> |disk.file| == s.job.ctx.size)
    && s.verifiedBytes == HeldBytes(s.job.ctx, s.have, s.job.ctx.chunkCount)
    && (s.phase != Discarded ==> SaneStream(s, disk.file))
    && (s.db.Some? ==> SaneDb(s))
    && (s.phase.CommitDue? ==> s.db.Some? && disk.Synced())
    && ((s.phase == SyncDue(Conclude) || s.phase in {Deciding, Discarding, Discarded, Finishing, Done}) ==>
        Complete(s.have))
    && (s.phase in {Finishing, Done} ==> Sender.Digest(disk.file) == s.job.digest)
    && (s.phase.SyncDue? && s.phase.purpose != Conclude ==> s.db.Some?)
    && (s.phase.CommitDue? ==> s.phase.purpose != Conclude)
  }

  ghost predicate SaneStream(s: Session, file: Bytes)
    requires s.job.ctx.Admitted() && |s.have| == s.job.ctx.chunkCount && |file| == s.job.ctx.size
  {
    s.streaming.Some? ==>
      var (hashed, next) := s.streaming.value;
      && next <= s.job.ctx.chunkCount
      && hashed == file[..Sender.Edge(s.job.ctx, next)]
      && forall i :: 0 <= i < next ==> s.have[i]
  }

  ghost predicate SaneDb(s: Session)
    requires s.db.Some?
  {
    var db := s.db.value;
    && db.record.WellFormed()
    && db.record.identity.Matches(s.job.Identity())
    && db.record.durable == s.have
    && (s.phase == Receiving ==> db.pending < CHECKPOINT_INTERVAL)
  }

  /** An accepted chunk is written at its place; one that is held already changes nothing. */
  ghost function ChunkStep(w: World, payload: Bytes): World
    requires Sane(w) && Enabled(w, Chunk(payload))
  {
    var s := w.session.value;
    var r := Check(s.job, s.have, payload).value;
    if r.None? then w
    else
      AcceptedFits(s.job, s.have, payload);
      World(w.disk.Write(s.job.ctx.Start(r.value.0), r.value.1), Some(Accept(s, r.value.0, r.value.1)))
  }

  /** A write that fails part way ends the session with a prefix of the chunk on disk. */
  ghost function TornStep(w: World, payload: Bytes, written: nat): World
    requires Sane(w) && Enabled(w, TornChunk(payload, written))
  {
    var s := w.session.value;
    var r := Check(s.job, s.have, payload).value;
    AcceptedFits(s.job, s.have, payload);
    World(w.disk.Write(s.job.ctx.Start(r.value.0), r.value.1[..written]), None)
  }

  /** One event. */
  ghost function Step(w: World, e: Event): World
    requires Sane(w) && Enabled(w, e)
  {
    match e
    case Begin(job, useDb, readable) =>
      World(w.disk.Resize(job.ctx.size), Some(BeginSession(w.disk, job, useDb, readable)))
    case Chunk(payload) => ChunkStep(w, payload)
    case TornChunk(payload, written) => TornStep(w, payload, written)
    case StreamEnd => w.(session := AfterStreamEnd(w.session.value, Complete(w.session.value.have)))
    case SyncFile => World(w.disk.Sync(), Some(AfterSync(w.session.value)))
    case CommitRecord(directorySynced) =>
      World(w.disk.Commit(w.session.value.db.value.record, directorySynced), AfterCommit(w.session.value))
    case Decide =>
      var s := w.session.value;
      w.(session := Some(s.(phase := if FinalDigest(s, w.disk.file) == s.job.digest then Finishing else Discarding)))
    case DiscardFile => World(w.disk.RemoveFile(), Some(w.session.value.(phase := Discarded)))
    case ForgetRecord =>
      var s := w.session.value;
      World(if s.db.Some? then w.disk.RemoveRecord() else w.disk,
            if s.phase == Finishing then Some(s.(phase := Done)) else None)
    case Interrupt => w.(session := None)
    case Crash(left, stored) => World(w.disk.AfterCrash(left, stored), None)
  }

  // --- Writing one chunk ---

  lemma EdgesRise(ctx: ObjectContext, a: nat, b: nat)
    requires ctx.Admitted() && a <= b < ctx.chunkCount
    ensures Sender.Edge(ctx, a) <= Sender.Edge(ctx, b) == ctx.Start(b)
  {
    hide ObjectContext.Admitted;
    Products(a, ctx.chunkSize, b, ctx.chunkSize);
  }

  lemma WriteFront(disk: Disk, offset: nat, data: Bytes, n: nat)
    requires n <= offset && offset + |data| <= |disk.file|
    ensures var file := disk.Write(offset, data).file;
            file[..n] == disk.file[..n] && file[..offset + |data|] == disk.file[..offset] + data
  {
  }

  /** A write at or past a prefix of chunks leaves the prefix, and extends it if it is the next chunk. */
  lemma WritePrefix(ctx: ObjectContext, disk: Disk, index: nat, plaintext: Bytes, next: nat)
    requires ctx.Admitted() && |disk.file| == ctx.size && next <= index < ctx.chunkCount &&
             |plaintext| == ctx.Len(index)
    requires ctx.Start(index) + |plaintext| <= ctx.size
    ensures var file := disk.Write(ctx.Start(index), plaintext).file;
            && file[..Sender.Edge(ctx, next)] == disk.file[..Sender.Edge(ctx, next)]
            && (next == index ==>
                  file[..Sender.Edge(ctx, index + 1)] == disk.file[..Sender.Edge(ctx, index)] + plaintext)
  {
    hide ObjectContext.Admitted, ObjectContext.Start, ObjectContext.Len, Sender.Edge, Disk.Write;
    Sender.NextEdge(ctx, index);
    EdgesRise(ctx, next, index);
    WriteFront(disk, ctx.Start(index), plaintext, Sender.Edge(ctx, next));
  }

  lemma {:induction false} HeldMore(ctx: ObjectContext, have: seq<bool>, index: nat, n: nat)
    requires ctx.Admitted() && |have| == ctx.chunkCount && index < ctx.chunkCount && !have[index] && n <= ctx.chunkCount
    ensures HeldBytes(ctx, have[index := true], n) == HeldBytes(ctx, have, n) + if index < n then ctx.Len(index) else 0
  {
    hide AllowedChunkSize;
    if n > 0 {
      HeldMore(ctx, have, index, n - 1);
    }
  }

  /** Held lengths add up to the end of the first `n` chunks exactly when all of those are held. */
  lemma {:induction false} HeldAll(ctx: ObjectContext, have: seq<bool>, n: nat)
    requires ctx.Admitted() && |have| == ctx.chunkCount && n <= ctx.chunkCount
    ensures HeldBytes(ctx, have, n) <= Sender.Edge(ctx, n)
    ensures HeldBytes(ctx, have, n) == Sender.Edge(ctx, n) <==> forall i :: 0 <= i < n ==> have[i]
  {
    hide AllowedChunkSize;
    if n > 0 {
      HeldAll(ctx, have, n - 1);
      Sender.NextEdge(ctx, n - 1);
      ChunksMeet(ctx, n - 1);
    } else if ctx.chunkCount > 0 {
      assert ctx.Start(0) == 0;
    }
  }

  // --- Every event keeps a sane world sane ---

  lemma SaneBegin(w: World, e: Event)
    requires Sane(w) && Enabled(w, e) && e.Begin?
    ensures Sane(Step(w, e))
  {
    hide AllowedChunkSize, HeldBytes;
    var s := Step(w, e).session.value;
    assert Step(w, e).disk.Valid();
    assert s.streaming == Some(([], 0));
    EdgeZero(e.job.ctx);
  }

  lemma EdgeZero(ctx: ObjectContext)
    requires ctx.Admitted()
    ensures Sender.Edge(ctx, 0) == 0
  {
  }

  lemma SaneChunk(w: World, e: Event)
    requires Sane(w) && Enabled(w, e) && e.Chunk?
    ensures Sane(Step(w, e))
  {
    hide AllowedChunkSize, HeldBytes, Check, Slice, Committed, Directions, Sender.Edge;
    var s := w.session.value;
    var r := Check(s.job, s.have, e.payload).value;
    if r.Some? {
      var (index, plaintext) := r.value;
      AcceptedIsCommitted(s.job, s.have, e.payload);
      SliceInside(s.job.ctx, index);
      HeldMore(s.job.ctx, s.have, index, s.job.ctx.chunkCount);
      StreamKeeps(s, w.disk, index, plaintext);
      WriteValid(w.disk, s.job.ctx.Start(index), plaintext);
    }
  }

  lemma StreamKeeps(s: Session, disk: Disk, index: nat, plaintext: Bytes)
    requires SaneSession(s, disk) && s.phase == Receiving
    requires index < s.job.ctx.chunkCount && !s.have[index] && |plaintext| == s.job.ctx.Len(index)
    requires s.job.ctx.Start(index) + |plaintext| <= s.job.ctx.size
    ensures SaneStream(Accept(s, index, plaintext), disk.Write(s.job.ctx.Start(index), plaintext).file)
  {
    hide AllowedChunkSize, HeldBytes, Sender.Edge;
    if s.streaming.Some? && s.streaming.value.1 <= index {
      WritePrefix(s.job.ctx, disk, index, plaintext, s.streaming.value.1);
    }
  }

  lemma WriteValid(disk: Disk, offset: nat, data: Bytes)
    requires disk.Valid() && offset + |data| <= |disk.file|
    ensures disk.Write(offset, data).Valid()
  {
  }

  lemma SaneTorn(w: World, e: Event)
    requires Sane(w) && Enabled(w, e) && e.TornChunk?
    ensures Sane(Step(w, e))
  {
    hide AllowedChunkSize, Check, Committed, Directions, HeldBytes;
    var s := w.session.value;
    var r := Check(s.job, s.have, e.payload).value;
    AcceptedIsCommitted(s.job, s.have, e.payload);
    SliceInside(s.job.ctx, r.value.0);
    WriteValid(w.disk, s.job.ctx.Start(r.value.0), r.value.1[..e.written]);
  }

  lemma SaneDecide(w: World, e: Event)
    requires Sane(w) && Enabled(w, e) && e.Decide?
    ensures Sane(Step(w, e))
    ensures FinalDigest(w.session.value, w.disk.file) == Sender.Digest(w.disk.file)
  {
    hide AllowedChunkSize, HeldBytes;
    var s := w.session.value;
    if s.streaming.Some? && s.streaming.value.1 == s.job.ctx.chunkCount {
      assert w.disk.file[..|w.disk.file|] == w.disk.file;
    }
  }

  lemma SaneOther(w: World, e: Event)
    requires Sane(w) && Enabled(w, e) &&
             (e.StreamEnd? || e.SyncFile? || e.CommitRecord? || e.DiscardFile? || e.ForgetRecord? || e.Interrupt? ||
              e.Crash?)
    ensures Sane(Step(w, e))
  {
    hide AllowedChunkSize, HeldBytes, Check, ChunkStep, TornStep;
  }

  lemma StepIsSane(w: World, e: Event)
    requires Sane(w) && Enabled(w, e)
    ensures Sane(Step(w, e))
  {
    hide Sane, Enabled, Step;
    if e.Begin? {
      SaneBegin(w, e);
    } else if e.Chunk? {
      SaneChunk(w, e);
    } else if e.TornChunk? {
      SaneTorn(w, e);
    } else if e.Decide? {
      SaneDecide(w, e);
    } else {
      SaneOther(w, e);
    }
  }
}
