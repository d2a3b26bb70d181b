/**
 Whole runs of the receiver: any sequence of arriving records, syncs, checkpoints,
 interruptions, crashes and reopenings.
 */
module ReceiverRuns {
  import opened Octets
  import opened Merkle
  import opened Geometry
  import opened Chunks
  import opened ChunkRecord
  import opened Storage
  import opened Receiver
  import opened ReceiverSafety
  import Sender

  ghost predicate Possible(w: World, events: seq<Event>)
    requires Sane(w)
    decreases |events|
  {
    events == [] || (Enabled(w, events[0]) && (StepIsSane(w, events[0]); Possible(Step(w, events[0]), events[1..])))
  }

  ghost function Run(w: World, events: seq<Event>): (w': World)
    requires Sane(w) && Possible(w, events)
    ensures Sane(w')
    decreases |events|
  {
    if events == [] then w
    else
      StepIsSane(w, events[0]);
      Run(Step(w, events[0]), events[1..])
  }

  /** One run after another. */
  lemma {:induction false} RunOn(w: World, a: seq<Event>, b: seq<Event>)
    requires Sane(w) && Possible(w, a) && Possible(Run(w, a), b)
    ensures Possible(w, a + b) && Run(w, a + b) == Run(Run(w, a), b)
    decreases |a|
  {
    hide Step, Enabled, Sane;
    if a == [] {
      assert a + b == b;
    } else {
      StepIsSane(w, a[0]);
      RunOn(Step(w, a[0]), a[1..], b);
      assert (a + b)[1..] == a[1..] + b;
    }
  }

  lemma OneStep(w: World, e: Event)
    requires Sane(w) && Enabled(w, e)
    ensures Possible(w, [e]) && Run(w, [e]) == Step(w, e) && Sane(Step(w, e))
  {
    hide Step, Enabled, Sane;
    StepIsSane(w, e);
    assert Run(Step(w, e), []) == Step(w, e);
  }

  /** A run for one object that discards the file only where no record claims a chunk of it. */
  ghost predicate Careful(w: World, events: seq<Event>, t: Target)
    requires Sane(w) && Possible(w, events)
    decreases |events|
  {
    events != [] ==>
      && Allowed(w, events[0], t)
      && (StepIsSane(w, events[0]); Careful(Step(w, events[0]), events[1..], t))
  }

  lemma {:induction false} CarefulOn(w: World, a: seq<Event>, b: seq<Event>, t: Target)
    requires Sane(w) && Possible(w, a) && Possible(Run(w, a), b) && Possible(w, a + b)
    requires Careful(w, a, t) && Careful(Run(w, a), b, t)
    ensures Careful(w, a + b, t)
    decreases |a|
  {
    hide Step, Enabled, Sane, Allowed;
    if a == [] {
      assert a + b == b;
    } else {
      StepIsSane(w, a[0]);
      assert (a + b)[1..] == a[1..] + b;
      CarefulOn(Step(w, a[0]), a[1..], b, t);
    }
  }

  /** A destination with no session and no record for this object. Its file may hold anything. */
  ghost predicate Untouched(w: World, t: Target) {
    && w.disk.Valid() && w.session.None? && t.ctx.Admitted()
    && forall c :: c in w.disk.candidates && c.Some? ==> !c.value.identity.Matches(t.Identity())
  }

  lemma {:induction false} RunKeepsTruth(w: World, events: seq<Event>, t: Target)
    requires Truth(w, t) && Possible(w, events) && Careful(w, events, t)
    ensures Truth(Run(w, events), t)
    decreases |events|
  {
    hide Step, Enabled, Allowed, Truthful, HeldStand, SaneSession, Disk.Valid;
    if events != [] {
      StepKeepsTruth(w, events[0], t);
      RunKeepsTruth(Step(w, events[0]), events[1..], t);
    }
  }

  lemma UntouchedIsTrue(w: World, t: Target)
    requires Untouched(w, t)
    ensures Truth(w, t)
  {
    hide AllowedChunkSize, Stands, Certain;
  }

  /** Every chunk a session holds is on disk and is the one plaintext the root commits to. */
  lemma HeldIsCommitted(w: World, events: seq<Event>, t: Target)
    requires Untouched(w, t) && Possible(w, events) && Careful(w, events, t)
    ensures HeldStand(Run(w, events), t)
  {
    hide AllowedChunkSize, Stands, Allowed, Possible, Careful, Run;
    UntouchedIsTrue(w, t);
    RunKeepsTruth(w, events, t);
  }

  /** Whatever a crash leaves, the record names only verified chunks, and they are whole and committed. */
  lemma RecordsSurviveCrashes(w: World, events: seq<Event>, t: Target, left: Bytes, stored: ResumeRecord)
    requires Untouched(w, t) && Possible(w, events) && Careful(w, events, t)
    requires Run(w, events).disk.MayCrashTo(left, Some(stored)) && stored.identity.Matches(t.Identity())
    ensures stored.WellFormed() && Subset(stored.durable, stored.verified)
    ensures forall i: nat :: i < t.ctx.chunkCount && stored.durable[i] ==> Stands(left, t, i)
  {
    hide AllowedChunkSize, Stands, Certain, SaneSession, HeldStand, Allowed, Possible, Careful, Run;
    UntouchedIsTrue(w, t);
    RunKeepsTruth(w, events, t);
    var disk := Run(w, events).disk;
    assert Truthful(disk, t, Some(stored));
    forall i: nat | i < t.ctx.chunkCount && stored.durable[i] ensures Stands(left, t, i) {
      CrashKeeps(disk, left, Some(stored), t, i);
    }
  }

  /**
   A transfer that reports success left a file with the sender's digest, so the sender's file;
   and it counted every byte. Nothing is assumed of what was at the destination before, nor of
   what other objects it was used for.
   */
  lemma SuccessIsTheFile(w: World, events: seq<Event>, original: Bytes)
    requires Sane(w) && Possible(w, events)
    requires var s := Run(w, events).session;
             s.Some? && s.value.phase == Done && s.value.job.digest == Sender.Digest(original)
    ensures Run(w, events).disk.file == original
    ensures Run(w, events).session.value.verifiedBytes == |original|
  {
    hide AllowedChunkSize, HeldBytes;
    var w' := Run(w, events);
    OutputInjective(Blake3(w'.disk.file), Blake3(original), 32);
    HeldAll(w'.session.value.job.ctx, w'.session.value.have, w'.session.value.job.ctx.chunkCount);
  }

  /** At the final check, whichever digest is used, streamed or read back, is the digest of what is on disk. */
  lemma FinalDigestIsTheFiles(w: World, events: seq<Event>)
    requires Sane(w) && Possible(w, events)
    requires Run(w, events).session.Some? && Run(w, events).session.value.phase == Deciding
    ensures FinalDigest(Run(w, events).session.value, Run(w, events).disk.file) ==
            Sender.Digest(Run(w, events).disk.file)
  {
    hide AllowedChunkSize, HeldBytes, SaneStream, Complete, Disk.Valid, Possible, Sender.Digest, FinalDigest;
    SaneDecide(Run(w, events), Decide);
  }

  lemma ProgressStep(w: World, e: Event)
    requires Sane(w) && Enabled(w, e) && w.session.Some? && Step(w, e).session.Some?
    ensures Step(w, e).session.value.verifiedBytes >= w.session.value.verifiedBytes
    ensures Step(w, e).session.value.job == w.session.value.job
  {
    hide AllowedChunkSize, HeldBytes, SaneStream, Complete, Disk.Valid, Check, Stream, FinalDigest;
  }

  lemma OnlyBeginOpens(w: World, e: Event)
    requires Sane(w) && Enabled(w, e) && w.session.None? && !e.Begin?
    ensures Step(w, e).session.None?
  {
    hide AllowedChunkSize, HeldBytes, SaneStream, Complete, Disk.Valid, Check, ChunkStep, TornStep, FinalDigest;
  }

  lemma {:induction false} NothingOpens(w: World, events: seq<Event>)
    requires Sane(w) && w.session.None? && Possible(w, events) && forall e :: e in events ==> !e.Begin?
    ensures Run(w, events).session.None?
    decreases |events|
  {
    hide Step, Enabled, Sane;
    if events != [] {
      assert events[0] in events;
      OnlyBeginOpens(w, events[0]);
      StepIsSane(w, events[0]);
      NothingOpens(Step(w, events[0]), events[1..]);
    }
  }

  /** Within one attempt the count of verified bytes never falls; it is always the length of what is held. */
  lemma {:induction false} ProgressNeverFalls(w: World, events: seq<Event>)
    requires Sane(w) && Possible(w, events) && w.session.Some? && forall e :: e in events ==> !e.Begin?
    ensures var s := Run(w, events).session;
            s.Some? ==>
              && s.value.verifiedBytes >= w.session.value.verifiedBytes && s.value.job == w.session.value.job
              && |s.value.have| == s.value.job.ctx.chunkCount
              && s.value.verifiedBytes == HeldBytes(s.value.job.ctx, s.value.have, |s.value.have|)
    decreases |events|
  {
    hide AllowedChunkSize, HeldBytes, Step, Enabled, SaneStream, Disk.Valid, Complete;
    if events != [] {
      assert events[0] in events;
      StepIsSane(w, events[0]);
      if Step(w, events[0]).session.Some? {
        ProgressStep(w, events[0]);
        ProgressNeverFalls(Step(w, events[0]), events[1..]);
      } else {
        NothingOpens(Step(w, events[0]), events[1..]);
      }
    }
  }

  // --- How far the stored record lags behind ---

  /** Chunks among the first `n` that are marked in `now` and not in `stored`. */
  ghost function Behind(now: seq<bool>, stored: seq<bool>, n: nat): nat
    requires n <= |now| && n <= |stored|
  {
    if n == 0 then 0 else Behind(now, stored, n - 1) + if now[n - 1] && !stored[n - 1] then 1 else 0
  }

  lemma {:induction false} BehindOneMore(now: seq<bool>, stored: seq<bool>, index: nat, n: nat)
    requires n <= |now| && n <= |stored| && index < |now|
    ensures Behind(now[index := true], stored, n) <= Behind(now, stored, n) + if index < n then 1 else 0
  {
    if n > 0 {
      BehindOneMore(now, stored, index, n - 1);
    }
  }

  lemma {:induction false} NotBehind(now: seq<bool>, stored: seq<bool>, n: nat)
    requires n <= |now| && n <= |stored| && forall i :: 0 <= i < n && now[i] ==> stored[i]
    ensures Behind(now, stored, n) == 0
  {
    if n > 0 {
      NotBehind(now, stored, n - 1);
    }
  }

  /** What the record on disk says is durable for a job. */
  ghost function Persisted(disk: Disk, job: Job): (p: seq<bool>)
    requires disk.Valid()
    ensures |p| == job.ctx.chunkCount
  {
    Adopt(disk.record, job.Identity()).durable
  }

  /** Chunks written since the last checkpoint are pending. */
  ghost predicate Counted(w: World)
    requires Sane(w)
  {
    w.session.Some? && w.session.value.db.Some? && w.session.value.phase != Done ==>
      var s := w.session.value;
      Behind(s.have, Persisted(w.disk, s.job), s.job.ctx.chunkCount) <= s.db.value.pending
  }

  lemma CountedChunk(w: World, e: Event)
    requires Sane(w) && Enabled(w, e) && e.Chunk? && Counted(w) && Sane(Step(w, e))
    ensures Counted(Step(w, e))
  {
    hide AllowedChunkSize, HeldBytes, Check, Behind, Committed, Directions, SaneStream, Complete;
    var s := w.session.value;
    var r := Check(s.job, s.have, e.payload).value;
    if r.Some? && s.db.Some? {
      AcceptedIsCommitted(s.job, s.have, e.payload);
      BehindOneMore(s.have, Persisted(w.disk, s.job), r.value.0, s.job.ctx.chunkCount);
    }
  }

  lemma CountedOther(w: World, e: Event)
    requires Sane(w) && Enabled(w, e) && !e.Chunk? && Counted(w) && Sane(Step(w, e))
    ensures Counted(Step(w, e))
  {
    hide AllowedChunkSize, HeldBytes, Check, ChunkStep, Behind, Committed, SaneStream, Complete;
    var w' := Step(w, e);
    if w'.session.Some? && w'.session.value.db.Some? && (e.Begin? || e.CommitRecord?) {
      var s := w'.session.value;
      NotBehind(s.have, Persisted(w'.disk, s.job), s.job.ctx.chunkCount);
    }
  }

  /** While chunks arrive, the stored record misses fewer chunks than the checkpoint interval. */
  lemma {:induction false} RecordLagsLittle(w: World, events: seq<Event>)
    requires Sane(w) && Counted(w) && Possible(w, events)
    ensures Counted(Run(w, events))
    ensures var w' := Run(w, events);
            w'.session.Some? && w'.session.value.db.Some? && w'.session.value.phase == Receiving ==>
              Behind(w'.session.value.have, Persisted(w'.disk, w'.session.value.job),
                     |w'.session.value.have|) < CHECKPOINT_INTERVAL
    decreases |events|
  {
    hide AllowedChunkSize, HeldBytes, Behind, Step, Enabled, Disk.Valid, SaneStream, Complete;
    if events != [] {
      StepIsSane(w, events[0]);
      if events[0].Chunk? {
        CountedChunk(w, events[0]);
      } else {
        CountedOther(w, events[0]);
      }
      RecordLagsLittle(Step(w, events[0]), events[1..]);
    }
  }

  // --- An honest object ---

  /** The root is the one the sender computes for this file. */
  ghost predicate Honest(t: Target, s: Schedule, file: Bytes) {
    t.ctx.Admitted() && |file| == t.ctx.size && t.root == Root(Leaves(s, t.ctx, file))
  }

  /** Under an honest root the committed plaintexts are exactly the chunks of the file. */
  lemma HonestCommits(t: Target, s: Schedule, file: Bytes, i: nat, plaintext: Bytes)
    requires Honest(t, s, file) && i < t.ctx.chunkCount
    ensures Committed(t.root, t.ctx.chunkCount, i, plaintext) <==> plaintext == Slice(t.ctx, file, i)
  {
    hide AllowedChunkSize, Root, Leaves, Proves, LeafHash, DecryptChunk, Slice, Committed;
    Sender.RecordPasses(s, t.ctx, file, i);
    var r := Sender.RecordFor(s, t.ctx, file, i);
    CommittedIntro(t.root, t.ctx.chunkCount, i, Slice(t.ctx, file, i), r.ciphertext, r.proof, s, t.ctx);
    if Committed(t.root, t.ctx.chunkCount, i, plaintext) {
      CommittedOnce(t.root, t.ctx.chunkCount, i, plaintext, Slice(t.ctx, file, i));
    }
  }

  lemma CommittedIntro(root: Hash, count: nat, index: nat, plaintext: Bytes,
                       ciphertext: Bytes, proof: seq<ProofStep>, s: Schedule, ctx: ObjectContext)
    requires CommittedBy(root, count, index, plaintext, ciphertext, proof, s, ctx)
    ensures Committed(root, count, index, plaintext)
  {
    hide CommittedBy;
  }

  lemma StandsIsSlice(t: Target, s: Schedule, file: Bytes, current: Bytes, i: nat)
    requires Honest(t, s, file) && |current| == t.ctx.size && i < t.ctx.chunkCount
    ensures Stands(current, t, i) <==> Slice(t.ctx, current, i) == Slice(t.ctx, file, i)
  {
    hide AllowedChunkSize, Committed, Root, Leaves;
    SliceInside(t.ctx, i);
    HonestCommits(t, s, file, i, Slice(t.ctx, current, i));
  }

  /** A complete honest object is the file, before any digest is compared. */
  lemma CompleteIsTheFile(w: World, t: Target, s: Schedule, file: Bytes)
    requires Truth(w, t) && Honest(t, s, file)
    requires w.session.Some? && Complete(w.session.value.have) && w.session.value.phase != Discarded
    ensures w.disk.file == file
  {
    hide AllowedChunkSize, Stands, Root, Leaves, Truthful, Slice, Honest, Disk.Valid, SaneSession;
    TargetSize(w, t);
    assert t.ctx.Admitted() && |file| == t.ctx.size by { HonestSize(t, s, file); }
    forall i: nat | i < t.ctx.chunkCount ensures Slice(t.ctx, w.disk.file, i) == Slice(t.ctx, file, i) {
      StandsIsSlice(t, s, file, w.disk.file, i);
    }
    FilesAgree(t.ctx, w.disk.file, file);
  }

  lemma HonestSize(t: Target, s: Schedule, file: Bytes)
    requires Honest(t, s, file)
    ensures t.ctx.Admitted() && |file| == t.ctx.size
  {
    hide AllowedChunkSize, Root, Leaves;
  }

  /** Every attempt is for the honest object with its true digest. */
  ghost predicate HonestEvent(e: Event, t: Target, file: Bytes) {
    e.Begin? ==> e.job.ctx == t.ctx && e.job.root == t.root && e.job.digest == Sender.Digest(file)
  }

  ghost predicate GoodFaith(w: World, t: Target, file: Bytes) {
    && Truth(w, t)
    && (w.session.Some? ==>
          w.session.value.job.digest == Sender.Digest(file) && w.session.value.phase !in {Discarding, Discarded})
  }

  lemma GoodFaithAllows(w: World, e: Event, t: Target, file: Bytes)
    requires GoodFaith(w, t, file) && Enabled(w, e) && HonestEvent(e, t, file)
    ensures Allowed(w, e, t) && !e.DiscardFile?
  {
    hide AllowedChunkSize, HeldStand, Truthful, Sender.Digest, SaneSession, Disk.Valid, Check, NothingClaimed;
  }

  lemma GoodFaithStep(w: World, e: Event, t: Target, s: Schedule, file: Bytes)
    requires Honest(t, s, file) && GoodFaith(w, t, file) && Enabled(w, e) && HonestEvent(e, t, file)
    ensures GoodFaith(Step(w, e), t, file) && !e.DiscardFile?
  {
    hide AllowedChunkSize, HeldStand, Truthful, Step, Honest, Sender.Digest, Disk.Valid, SaneStream, HeldBytes, Allowed;
    GoodFaithAllows(w, e, t, file);
    StepKeepsTruth(w, e, t);
    if e.Chunk? {
      SameJob(w, e);
    } else if e.Decide? {
      CompleteIsTheFile(w, t, s, file);
      SaneDecide(w, e);
      DecidesWell(w, e);
    } else {
      NeverTurns(w, e);
    }
  }

  lemma DecidesWell(w: World, e: Event)
    requires Sane(w) && Enabled(w, e) && e.Decide? &&
             FinalDigest(w.session.value, w.disk.file) == w.session.value.job.digest
    ensures Step(w, e).session == Some(w.session.value.(phase := Finishing))
  {
    hide AllowedChunkSize, Disk.Valid, SaneStream, HeldBytes, ChunkStep, TornStep, FinalDigest;
  }

  /** Only the final check can reject the file, and only opening a session sets its job. */
  lemma NeverTurns(w: World, e: Event)
    requires Sane(w) && Enabled(w, e) && !e.Chunk? && !e.Decide?
    ensures var w' := Step(w, e);
            w'.session.Some? ==>
              && w'.session.value.phase != Discarding && (w'.session.value.phase == Discarded ==> e.DiscardFile?)
              && (if e.Begin? then w'.session.value.job == e.job
                  else w.session.Some? && w'.session.value.job == w.session.value.job)
  {
    hide AllowedChunkSize, Disk.Valid, SaneStream, HeldBytes, ChunkStep, Complete, Check;
  }

  lemma SameJob(w: World, e: Event)
    requires Sane(w) && Enabled(w, e) && e.Chunk?
    ensures var w' := Step(w, e); w'.session.Some? && w'.session.value.job == w.session.value.job
    ensures Step(w, e).session.value.phase in {Receiving, SyncDue(KeepReceiving)}
  {
    hide AllowedChunkSize, Check, Disk.Valid, SaneStream, HeldBytes, Stream;
  }

  /**
   For an honest object every attempt keeps all of the truth, with no exception: the plaintext
   is never discarded, and once all chunks are held the file is the sender's.
   */
  lemma {:induction false} HonestNeverDiscards(w: World, events: seq<Event>, t: Target, s: Schedule, file: Bytes)
    requires Honest(t, s, file) && GoodFaith(w, t, file) && Possible(w, events)
    requires forall e :: e in events ==> HonestEvent(e, t, file)
    ensures GoodFaith(Run(w, events), t, file)
    ensures DiscardFile !in events
    ensures var w' := Run(w, events); w'.session.Some? && Complete(w'.session.value.have) ==> w'.disk.file == file
    decreases |events|
  {
    hide AllowedChunkSize, Step, HonestEvent, Honest, Truthful, Stands, SaneSession, Disk.Valid, Complete;
    if events != [] {
      assert events[0] in events;
      GoodFaithStep(w, events[0], t, s, file);
      HonestNeverDiscards(Step(w, events[0]), events[1..], t, s, file);
    } else if w.session.Some? && Complete(w.session.value.have) {
      CompleteIsTheFile(w, t, s, file);
    }
  }

  // --- Which objects can be received ---

  /** An honest record is accepted exactly when its proof is one the decoder can read. */
  lemma HonestRecordAccepted(job: Job, file: Bytes, have: seq<bool>, index: nat)
    requires Honest(Target(job.ctx, job.root), job.schedule, file)
    requires |have| == job.ctx.chunkCount && index < job.ctx.chunkCount && !have[index]
    ensures Encodable(Sender.RecordFor(job.schedule, job.ctx, file, index))
    ensures Check(job, have, Encode(Sender.RecordFor(job.schedule, job.ctx, file, index))) ==
            if |Directions(job.ctx.chunkCount, index)| <= DECODABLE_STEPS
            then Ok(Some((index, Slice(job.ctx, file, index))))
            else Err(TransferError.BadRecord)
  {
    hide AllowedChunkSize, Root, Proves, LeafHash, DecryptChunk, Slice, Encode, Decode, Directions, EncryptChunk;
    var r := Sender.RecordFor(job.schedule, job.ctx, file, index);
    Sender.RecordPasses(job.schedule, job.ctx, file, index);
    Sender.RecordEncodes(job.schedule, job.ctx, file, index);
    ProofLength(Leaves(job.schedule, job.ctx, file), index);
    RecordReads(r);
  }

  /** This chunk is in no record for the object and in no session for it. */
  ghost predicate Barred(w: World, t: Target, index: nat)
    requires Sane(w) && index < t.ctx.chunkCount
  {
    && (forall c :: c in w.disk.candidates && c.Some? && c.value.identity.Matches(t.Identity()) ==>
        !c.value.durable[index])
    && (w.session.Some? && w.session.value.job.Identity().Matches(t.Identity()) ==> !w.session.value.have[index])
  }

  lemma BarredChunk(w: World, e: Event, t: Target, index: nat)
    requires Sane(w) && Enabled(w, e) && e.Chunk? && Sane(Step(w, e))
    requires index < t.ctx.chunkCount && Barred(w, t, index) && |Directions(t.ctx.chunkCount, index)| > DECODABLE_STEPS
    ensures Barred(Step(w, e), t, index)
  {
    hide AllowedChunkSize, HeldBytes, Check, Committed, Directions, SaneStream, Complete;
    var s := w.session.value;
    var r := Check(s.job, s.have, e.payload).value;
    if r.Some? {
      AcceptedIsCommitted(s.job, s.have, e.payload);
    }
  }

  lemma BarredOther(w: World, e: Event, t: Target, index: nat)
    requires Sane(w) && Enabled(w, e) && !e.Chunk? && Sane(Step(w, e))
    requires index < t.ctx.chunkCount && Barred(w, t, index)
    ensures Barred(Step(w, e), t, index)
  {
    hide AllowedChunkSize, HeldBytes, Check, Committed, Directions, SaneStream, Complete;
  }

  /** A chunk whose proof is too deep for the decoder is never held, over any history of the destination. */
  lemma {:induction false} DeepChunkNeverHeld(w: World, events: seq<Event>, t: Target, index: nat)
    requires Sane(w) && Possible(w, events)
    requires index < t.ctx.chunkCount && Barred(w, t, index) && |Directions(t.ctx.chunkCount, index)| > DECODABLE_STEPS
    ensures Barred(Run(w, events), t, index)
    decreases |events|
  {
    hide AllowedChunkSize, Step, Enabled, Directions, SaneSession, Disk.Valid;
    if events != [] {
      StepIsSane(w, events[0]);
      if events[0].Chunk? {
        BarredChunk(w, events[0], t, index);
      } else {
        BarredOther(w, events[0], t, index);
      }
      DeepChunkNeverHeld(Step(w, events[0]), events[1..], t, index);
    }
  }

  /** So an object of more than 16384 chunks is never received, whoever sends it. */
  lemma LargeObjectsNeverFinish(w: World, events: seq<Event>, t: Target)
    requires Untouched(w, t) && Possible(w, events) && t.ctx.chunkCount > DECODABLE_LEAVES
    ensures var w' := Run(w, events);
            w'.session.Some? && w'.session.value.job.Identity().Matches(t.Identity()) ==>
              !Complete(w'.session.value.have) && w'.session.value.phase != Done
  {
    hide AllowedChunkSize, Directions, Disk.Valid, SaneStream, HeldBytes;
    TreeDecodes(t.ctx.chunkCount);
    var index: nat :| index < t.ctx.chunkCount && |Directions(t.ctx.chunkCount, index)| > DECODABLE_STEPS;
    DeepChunkNeverHeld(w, events, t, index);
  }
}
