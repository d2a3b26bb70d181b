/**
 What the receiver can reach: an honest object of at most 16384 chunks can be finished from
 every receiving state, and a false digest can leave a record that outlives its file.
 */
module ReceiverProgress {
  import opened Octets
  import opened Merkle
  import opened Geometry
  import opened Chunks
  import opened ChunkRecord
  import opened Storage
  import opened Receiver
  import opened ReceiverSafety
  import opened ReceiverRuns
  import Sender

  /** A session is receiving an honest object that the decoder can carry. */
  ghost predicate Underway(w: World, file: Bytes) {
    && Sane(w) && w.session.Some? && w.session.value.phase == Receiving
    && Honest(Target(w.session.value.job.ctx, w.session.value.job.root), w.session.value.job.schedule, file)
    && w.session.value.job.ctx.chunkCount <= DECODABLE_LEAVES
  }

  /** The stored record is for the session's object and names this held chunk. */
  ghost predicate Named(w: World, i: nat)
    requires Sane(w) && w.session.Some? && i < |w.session.value.have|
  {
    && w.session.value.have[i] && w.disk.record.Some?
    && w.disk.record.value.identity.Matches(w.session.value.job.Identity())
    && w.disk.record.value.durable[i]
  }

  /** The effect of an honest record for a missing chunk. */
  lemma HonestChunk(w: World, file: Bytes, index: nat) returns (e: Event)
    requires Underway(w, file) && index < |w.session.value.have| && !w.session.value.have[index]
    ensures e.Chunk? && Enabled(w, e)
    ensures var s, w' := w.session.value, Step(w, e);
            && w'.session.Some? && w'.session.value.job == s.job && w'.session.value.have == s.have[index := true]
            && w'.session.value.verifiedBytes > s.verifiedBytes && w'.session.value.db.Some? == s.db.Some?
            && w'.session.value.phase in {Receiving, SyncDue(KeepReceiving)}
            && w'.disk.record == w.disk.record
  {
    hide AllowedChunkSize, HeldBytes, Check, Committed, Directions, SaneStream, Complete, Root, Leaves, Encode, Slice,
         Stream, Encodable;
    var s := w.session.value;
    HonestRecordAccepted(s.job, file, s.have, index);
    TreeDecodes(s.job.ctx.chunkCount);
    ChunksMeet(s.job.ctx, index);
    e := Chunk(Encode(Sender.RecordFor(s.job.schedule, s.job.ctx, file, index)));
  }

  /** A checkpoint that is due while receiving goes back to receiving, with everything held on record. */
  lemma CheckpointReturns(w: World)
    requires Sane(w) && w.session.Some? && w.session.value.phase == SyncDue(KeepReceiving)
    ensures Enabled(w, SyncFile) && Sane(Step(w, SyncFile)) && Enabled(Step(w, SyncFile), CommitRecord(true))
    ensures var w' := Step(Step(w, SyncFile), CommitRecord(true));
            && Sane(w') && w'.session.Some? && w'.session.value.phase == Receiving
            && w'.session.value.job == w.session.value.job && w'.session.value.have == w.session.value.have
            && w'.session.value.verifiedBytes == w.session.value.verifiedBytes &&
                w'.session.value.db.Some? == w.session.value.db.Some?
            && w'.disk.record.Some? && w'.disk.record.value.identity.Matches(w.session.value.job.Identity())
            && w'.disk.record.value.durable == w.session.value.have
  {
    StepIsSane(w, SyncFile);
    StepIsSane(Step(w, SyncFile), CommitRecord(true));
    hide AllowedChunkSize, HeldBytes, SaneStream, Complete, Disk.Valid;
  }

  /** These steps lead from one world to another and are all for this object. */
  ghost predicate Leads(w: World, events: seq<Event>, w': World, t: Target)
    requires Sane(w)
  {
    Possible(w, events) && Run(w, events) == w' && Careful(w, events, t)
  }

  lemma LeadsFirst(w: World, e: Event, rest: seq<Event>, w': World, t: Target)
    requires Sane(w) && Enabled(w, e) && ForTarget(e, t) && !e.DiscardFile?
    requires Sane(Step(w, e)) && Leads(Step(w, e), rest, w', t)
    ensures Leads(w, [e] + rest, w', t)
  {
    hide Step, Enabled, ForTarget, Sane;
    assert ([e] + rest)[1..] == rest;
  }

  lemma LeadsOn(w: World, a: seq<Event>, v: World, b: seq<Event>, w': World, t: Target)
    requires Sane(w) && Leads(w, a, v, t) && Sane(v) && Leads(v, b, w', t)
    ensures Leads(w, a + b, w', t)
  {
    hide Step, Enabled, ForTarget, Sane, Possible, Run, Careful;
    RunOn(w, a, b);
    CarefulOn(w, a, b, t);
  }

  lemma Ours(e: Event, t: Target)
    requires !e.Begin? && !e.DiscardFile?
    ensures ForTarget(e, t)
  {
  }

  /** After an accepted chunk: whatever checkpoint is due is made, and chunks can arrive again. */
  lemma Settle(w: World, t: Target, i: nat) returns (events: seq<Event>, w': World)
    requires Sane(w) && w.session.Some? && w.session.value.phase in {Receiving, SyncDue(KeepReceiving)}
    ensures Leads(w, events, w', t) && Sane(w') && w'.session.Some? && w'.session.value.phase == Receiving
    ensures w'.session.value.job == w.session.value.job && w'.session.value.have == w.session.value.have
    ensures w'.session.value.verifiedBytes == w.session.value.verifiedBytes &&
            w'.session.value.db.Some? == w.session.value.db.Some?
    ensures i < |w.session.value.have| && Named(w, i) ==> Named(w', i)
  {
    hide AllowedChunkSize, HeldBytes, Step, Enabled, SaneStream, Complete, Disk.Valid, ForTarget;
    if w.session.value.phase == Receiving {
      events, w' := [], w;
    } else {
      CheckpointReturns(w);
      Ours(SyncFile, t);
      Ours(CommitRecord(true), t);
      var v := Step(w, SyncFile);
      w' := Step(v, CommitRecord(true));
      assert Leads(w', [], w', t);
      LeadsFirst(v, CommitRecord(true), [], w', t);
      LeadsFirst(w, SyncFile, [CommitRecord(true)] + [], w', t);
      events := [SyncFile] + ([CommitRecord(true)] + []);
    }
  }

  /** Once every chunk is held, the end of the stream leads to the final check. */
  lemma ToTheCheck(w: World, t: Target) returns (events: seq<Event>, w': World)
    requires Sane(w) && w.session.Some? && w.session.value.phase == Receiving && Complete(w.session.value.have)
    ensures Leads(w, events, w', t) && Sane(w')
    ensures w'.session == Some(w.session.value.(phase := Deciding)) && w'.disk == w.disk.Sync()
  {
    StepIsSane(w, StreamEnd);
    var v := Step(w, StreamEnd);
    StepIsSane(v, SyncFile);
    w' := Step(v, SyncFile);
    hide AllowedChunkSize, HeldBytes, SaneStream, Complete, Disk.Valid, ForTarget;
    Ours(StreamEnd, t);
    Ours(SyncFile, t);
    assert Leads(w', [], w', t);
    LeadsFirst(v, SyncFile, [], w', t);
    LeadsFirst(w, StreamEnd, [SyncFile] + [], w', t);
    events := [StreamEnd] + ([SyncFile] + []);
  }

  /** Delivering the missing chunks of an honest object leads to the final check. */
  lemma {:induction false} Deliver(w: World, t: Target, file: Bytes, i: nat) returns (events: seq<Event>, w': World)
    requires Underway(w, file)
    ensures Leads(w, events, w', t) && Sane(w')
    ensures w'.session.Some? && w'.session.value.phase == Deciding && w'.session.value.job == w.session.value.job
    ensures |w'.session.value.have| == |w.session.value.have| &&
            (i < |w.session.value.have| && Named(w, i) ==> Named(w', i))
    decreases w.session.value.job.ctx.size - w.session.value.verifiedBytes
  {
    hide AllowedChunkSize, HeldBytes, Honest, Step, Enabled, SaneStream, Disk.Valid, ForTarget, Leads, Complete;
    var s := w.session.value;
    if Complete(s.have) {
      events, w' := ToTheCheck(w, t);
    } else {
      var index := Missing(s.have);
      var e := HonestChunk(w, file, index);
      StepIsSane(w, e);
      Ours(e, t);
      var mid, v := Settle(Step(w, e), t, i);
      HeldAll(s.job.ctx, v.session.value.have, s.job.ctx.chunkCount);
      var rest;
      rest, w' := Deliver(v, t, file, i);
      LeadsOn(Step(w, e), mid, v, rest, w', t);
      LeadsFirst(w, e, mid + rest, w', t);
      events := [e] + (mid + rest);
    }
  }

  lemma Missing(have: seq<bool>) returns (index: nat)
    requires !Complete(have)
    ensures index < |have| && !have[index]
  {
    index :| index < |have| && !have[index];
  }

  /** The final check compares the sender's file, so it passes exactly for the true digest. */
  lemma Verdict(w: World, t: Target, s: Schedule, file: Bytes)
    requires Truth(w, t) && Honest(t, s, file) && w.session.Some? && w.session.value.phase == Deciding
    ensures Enabled(w, Decide) && Sane(Step(w, Decide)) && w.disk.file == file
    ensures var ok := w.session.value.job.digest == Sender.Digest(file);
            Step(w, Decide) == World(w.disk, Some(w.session.value.(phase := if ok then Finishing else Discarding)))
  {
    hide AllowedChunkSize, HeldBytes, SaneStream, Disk.Valid, Stands, Truthful, Honest, Sender.Digest, FinalDigest,
         ChunkStep, TornStep;
    CompleteIsTheFile(w, t, s, file);
    SaneDecide(w, Decide);
  }

  lemma Forgets(w: World) returns (w': World)
    requires Sane(w) && w.session.Some? && w.session.value.phase == Finishing
    ensures Enabled(w, ForgetRecord) && w' == Step(w, ForgetRecord) && Sane(w')
    ensures w'.session == Some(w.session.value.(phase := Done)) && w'.disk.file == w.disk.file
  {
    StepIsSane(w, ForgetRecord);
    hide AllowedChunkSize, HeldBytes, SaneStream, Disk.Valid, Complete, ChunkStep, TornStep;
    w' := Step(w, ForgetRecord);
  }

  lemma Passes(w: World, t: Target, s: Schedule, file: Bytes) returns (events: seq<Event>, w': World)
    requires Truth(w, t) && Honest(t, s, file) && w.session.Some? && w.session.value.phase == Deciding
    requires w.session.value.job.digest == Sender.Digest(file)
    ensures Leads(w, events, w', t) && Sane(w')
    ensures w'.session.Some? && w'.session.value.phase == Done && w'.disk.file == file
  {
    hide Step, Enabled, SaneSession, Disk.Valid, ForTarget, Stands, Truthful, AllowedChunkSize, Honest;
    Verdict(w, t, s, file);
    var v := Step(w, Decide);
    w' := Forgets(v);
    Ours(Decide, t);
    Ours(ForgetRecord, t);
    assert Leads(w', [], w', t);
    LeadsFirst(v, ForgetRecord, [], w', t);
    LeadsFirst(w, Decide, [ForgetRecord] + [], w', t);
    events := [Decide] + ([ForgetRecord] + []);
  }

  /** From every receiving state an honest object with its true digest can still be finished. */
  lemma CanFinish(w: World, file: Bytes) returns (events: seq<Event>)
    requires Underway(w, file) && w.session.value.job.digest == Sender.Digest(file)
    requires Truth(w, Target(w.session.value.job.ctx, w.session.value.job.root))
    ensures Possible(w, events) && Run(w, events).session.Some? && Run(w, events).session.value.phase == Done
    ensures Run(w, events).disk.file == file
  {
    hide AllowedChunkSize, HeldBytes, Honest, Step, Enabled, SaneSession, Disk.Valid, ForTarget, Complete, Stands,
         Truthful, Possible, Run;
    var t := Target(w.session.value.job.ctx, w.session.value.job.root);
    var v, tail, w';
    events, v := Deliver(w, t, file, 0);
    RunKeepsTruth(w, events, t);
    tail, w' := Passes(v, t, w.session.value.job.schedule, file);
    LeadsOn(w, events, v, tail, w', t);
    events := events + tail;
  }

  // --- The window after a false digest ---

  /** The first attempt gets one chunk, and is cut short after its record is committed. */
  lemma FirstAttempt(w: World, job: Job, file: Bytes) returns (events: seq<Event>, w': World)
    requires var t := Target(job.ctx, job.root); Untouched(w, t) && Honest(t, job.schedule, file)
    requires 2 <= job.ctx.chunkCount <= DECODABLE_LEAVES
    ensures Leads(w, events, w', Target(job.ctx, job.root)) && Sane(w') && w'.session.None?
    ensures w'.disk.record.Some? && w'.disk.record.value.identity.Matches(job.Identity()) &&
            w'.disk.record.value.durable[0]
  {
    var t := Target(job.ctx, job.root);
    var e := Begin(job, true, true);
    StepIsSane(w, e);
    var w1 := Step(w, e);
    assert w1.session.value.have == seq(job.ctx.chunkCount, _ => false) && w1.session.value.db.Some? &&
        w1.session.value.job == job;
    hide AllowedChunkSize, HeldBytes, Honest, Step, SaneSession, Disk.Valid, Leads, HonestEvent;
    var c := HonestChunk(w1, file, 0);
    Ours(c, t);
    StepIsSane(w1, c);
    var w2 := Step(w1, c);
    var mid, w3 := Settle(w2, t, 0);
    var last;
    last, w' := CutShort(w3, t);
    LeadsOn(w2, mid, w3, last, w', t);
    LeadsFirst(w1, c, mid + last, w', t);
    LeadsFirst(w, e, [c] + (mid + last), w', t);
    events := [e] + ([c] + (mid + last));
  }

  lemma CutShort(w: World, t: Target) returns (events: seq<Event>, w': World)
    requires Sane(w) && w.session.Some? && w.session.value.phase == Receiving && w.session.value.db.Some? &&
             !Complete(w.session.value.have)
    ensures Leads(w, events, w', t) && Sane(w') && w'.session.None?
    ensures w'.disk.record.Some? && w'.disk.record.value.identity.Matches(w.session.value.job.Identity())
    ensures w'.disk.record.value.durable == w.session.value.have
  {
    hide AllowedChunkSize, HeldBytes, SaneStream, Disk.Valid, Complete, ForTarget, ChunkStep, TornStep;
    StepIsSane(w, StreamEnd);
    var v := Step(w, StreamEnd);
    StepIsSane(v, SyncFile);
    var u := Step(v, SyncFile);
    StepIsSane(u, CommitRecord(true));
    w' := Step(u, CommitRecord(true));
    Ours(StreamEnd, t);
    Ours(SyncFile, t);
    Ours(CommitRecord(true), t);
    assert Leads(w', [], w', t);
    LeadsFirst(u, CommitRecord(true), [], w', t);
    LeadsFirst(v, SyncFile, [CommitRecord(true)] + [], w', t);
    LeadsFirst(w, StreamEnd, [SyncFile] + ([CommitRecord(true)] + []), w', t);
    events := [StreamEnd] + ([SyncFile] + ([CommitRecord(true)] + []));
  }

  /** The second attempt takes up the record, and reaches the verdict with it still on disk. */
  lemma SecondAttempt(w: World, job: Job, file: Bytes) returns (events: seq<Event>, w': World)
    requires var t := Target(job.ctx, job.root); Truth(w, t) && Honest(t, job.schedule, file)
    requires 2 <= job.ctx.chunkCount <= DECODABLE_LEAVES && w.session.None?
    requires w.disk.record.Some? && w.disk.record.value.identity.Matches(job.Identity()) &&
             w.disk.record.value.durable[0]
    ensures Leads(w, events, w', Target(job.ctx, job.root)) && Sane(w')
    ensures w'.session.Some? && w'.session.value.phase == Deciding && w'.session.value.job == job
    ensures |w'.session.value.have| == job.ctx.chunkCount && Named(w', 0)
  {
    var t := Target(job.ctx, job.root);
    var e := Begin(job, true, true);
    StepIsSane(w, e);
    var w1 := Step(w, e);
    assert w1.session.value.have == w.disk.record.value.durable && w1.session.value.job == job;
    hide AllowedChunkSize, HeldBytes, Honest, Step, Enabled, SaneSession, Leads, Truth;
    var rest;
    rest, w' := Deliver(w1, t, file, 0);
    LeadsFirst(w, e, rest, w', t);
    events := [e] + rest;
  }

  /** A false digest is rejected, with the record still naming a chunk. */
  lemma Rejected(w: World, t: Target, s: Schedule, file: Bytes) returns (w': World)
    requires Truth(w, t) && Honest(t, s, file) && w.session.Some? && w.session.value.phase == Deciding
    requires w.session.value.job.digest != Sender.Digest(file) && 0 < |w.session.value.have| && Named(w, 0)
    ensures Leads(w, [Decide], w', t) && Truth(w', t)
    ensures w'.session.Some? && w'.session.value.phase == Discarding && w'.session.value.job == w.session.value.job
    ensures w'.disk == w.disk
  {
    hide AllowedChunkSize, HeldBytes, Honest, SaneStream, Complete, Stands, Certain, Truthful, Step, FinalDigest;
    Verdict(w, t, s, file);
    Ours(Decide, t);
    StepKeepsTruth(w, Decide, t);
    w' := Step(w, Decide);
    assert Leads(w', [], w', t);
    LeadsFirst(w, Decide, [], w', t);
    assert [Decide] + [] == [Decide];
  }

  // --- What a discard can do to the attempts that follow ---

  lemma GoneFile(w: World)
    requires Sane(w) && w.session.Some? && w.session.value.phase == Discarding
    ensures Enabled(w, DiscardFile) && Sane(Step(w, DiscardFile))
    ensures Step(w, DiscardFile).disk == w.disk.RemoveFile()
  {
    StepIsSane(w, DiscardFile);
    hide AllowedChunkSize, HeldBytes, SaneStream, Complete, ChunkStep, TornStep;
  }

  /** The committed bytes of a chunk are all zero, so that a file that is only lengthened has them. */
  ghost predicate Blank(t: Target, i: nat)
    requires t.ctx.Admitted() && i < t.ctx.chunkCount
  {
    Committed(t.root, t.ctx.chunkCount, i, seq(t.ctx.Len(i), _ => Lit(0)))
  }

  /** A new file of the right length, with nothing written to it, has just the blank chunks. */
  lemma NewFileStands(t: Target, i: nat)
    requires t.ctx.Admitted() && i < t.ctx.chunkCount
    ensures Stands(Fitted([], t.ctx.size), t, i) <==> Blank(t, i)
  {
    hide AllowedChunkSize, Committed;
    SliceInside(t.ctx, i);
    var start, end := t.ctx.Start(i), t.ctx.Start(i) + t.ctx.Len(i);
    assert Fitted([], t.ctx.size)[start..end] == seq(t.ctx.Len(i), _ => Lit(0));
  }

  /** Content of the right length that is not what the root commits to: no file, unless the chunk is blank. */
  lemma WrongBytes(t: Target, i: nat) returns (left: Bytes)
    requires t.ctx.Admitted() && i < t.ctx.chunkCount
    ensures !Stands(Fitted(left, t.ctx.size), t, i)
    ensures left == [] <==> !Blank(t, i)
  {
    hide AllowedChunkSize, Committed, Stands;
    NewFileStands(t, i);
    left := [];
    if Blank(t, i) {
      left := seq(t.ctx.size, _ => Lit(1));
      OtherBytesFall(t, i);
    }
  }

  lemma OtherBytesFall(t: Target, i: nat)
    requires t.ctx.Admitted() && i < t.ctx.chunkCount && Blank(t, i)
    ensures var ones := seq(t.ctx.size, _ => Lit(1)); ones != [] && !Stands(Fitted(ones, t.ctx.size), t, i)
  {
    hide AllowedChunkSize, Committed;
    SliceInside(t.ctx, i);
    ChunksMeet(t.ctx, i);
    var start, end := t.ctx.Start(i), t.ctx.Start(i) + t.ctx.Len(i);
    var zeros, ones := seq(t.ctx.Len(i), _ => Lit(0)), Fitted(seq(t.ctx.size, _ => Lit(1)), t.ctx.size);
    assert zeros[0] != ones[start..end][0];
    if Committed(t.root, t.ctx.chunkCount, i, ones[start..end]) {
      CommittedOnce(t.root, t.ctx.chunkCount, i, zeros, ones[start..end]);
    }
  }

  /** A record that is taken up over such content: the session holds a chunk that does not stand. */
  lemma TakenUp(disk: Disk, left: Bytes, stored: ResumeRecord, job: Job, i: nat)
    requires stored.WellFormed() && stored.identity.Matches(job.Identity()) && job.ctx.Admitted()
    requires i < job.ctx.chunkCount && stored.durable[i]
    requires disk == Disk(left, map o: nat | 0 <= o < |left| :: {left[o]}, Some(stored), {Some(stored)})
    ensures disk.Valid()
    ensures var w := World(disk, None);
            && Enabled(w, Begin(job, true, true))
            && var w' := Step(w, Begin(job, true, true));
               && w'.disk.file == Fitted(left, job.ctx.size)
               && w'.session.Some? && w'.session.value.have == stored.durable
               && w'.session.value.job == job && w'.session.value.phase == Receiving
  {
    hide AllowedChunkSize, HeldBytes, ChunkStep, TornStep;
  }

  /** What follows a discard when a crash brings a record back: a new attempt that takes the record up. */
  function Retry(left: Bytes, stored: ResumeRecord, job: Job): seq<Event> {
    [Crash(left, Some(stored))] + [Begin(job, true, true)]
  }

  lemma RetryHolds(w: World, t: Target, left: Bytes, stored: ResumeRecord, i: nat)
    requires Truth(w, t) && w.session.Some? && w.session.value.phase == Discarding
    requires Some(stored) in w.disk.candidates && stored.identity.Matches(t.Identity())
    requires i < t.ctx.chunkCount && stored.durable[i]
    ensures Enabled(w, DiscardFile) && Sane(Step(w, DiscardFile))
    ensures var v, events := Step(w, DiscardFile), Retry(left, stored, w.session.value.job);
            && Possible(v, events) && Careful(v, events, t)
            && (Broken(Run(v, events), t, i) <==> !Stands(Fitted(left, t.ctx.size), t, i))
  {
    hide AllowedChunkSize, HeldBytes, Stands, Truthful, SaneSession, Certain, Fitted;
    GoneFile(w);
    var v := Step(w, DiscardFile);
    var job := w.session.value.job;
    var crash, begin := Crash(left, Some(stored)), Begin(job, true, true);
    CrashOpen(v, left, Some(stored));
    var u := Step(v, crash);
    TakenUp(u.disk, left, stored, job, i);
    StepIsSane(u, begin);
    assert Leads(Step(u, begin), [], Step(u, begin), t);
    LeadsFirst(u, begin, [], Step(u, begin), t);
    assert [begin] + [] == [begin];
    LeadsFirst(v, crash, [begin], Step(u, begin), t);
  }

  /**
   After a discard, a claim that survives leads to a held chunk that is not there. It is enough
   that the file is gone, unless the chunk is blank; then stale content must come back.
   */
  lemma ClaimBreaks(w: World, t: Target, stored: ResumeRecord, i: nat) returns (left: Bytes)
    requires Truth(w, t) && w.session.Some? && w.session.value.phase == Discarding
    requires Some(stored) in w.disk.candidates && stored.identity.Matches(t.Identity())
    requires i < t.ctx.chunkCount && stored.durable[i]
    ensures Enabled(w, DiscardFile) && Sane(Step(w, DiscardFile))
    ensures var v, events := Step(w, DiscardFile), Retry(left, stored, w.session.value.job);
            && Possible(v, events) && Careful(v, events, t)
            && Broken(Run(v, events), t, i)
    ensures left == [] <==> !Blank(t, i)
  {
    hide Truth, Stands, Fitted, Blank, Sane, Retry, Broken, Careful, Possible, Run, Step, Enabled;
    left := Wrong(w, t, i);
    RetryHolds(w, t, left, stored, i);
  }

  lemma Wrong(w: World, t: Target, i: nat) returns (left: Bytes)
    requires Truth(w, t) && i < t.ctx.chunkCount
    ensures t.ctx.Admitted() && !Stands(Fitted(left, t.ctx.size), t, i) && (left == [] <==> !Blank(t, i))
  {
    hide Stands, Fitted, Blank, Sane, Truthful;
    left := WrongBytes(t, i);
  }

  /** With no stale content: a crash that leaves no file breaks just the claims of chunks that are not blank. */
  lemma GoneFileBreaksIff(w: World, t: Target, stored: ResumeRecord, i: nat)
    requires Truth(w, t) && w.session.Some? && w.session.value.phase == Discarding
    requires Some(stored) in w.disk.candidates && stored.identity.Matches(t.Identity())
    requires i < t.ctx.chunkCount && stored.durable[i]
    ensures Enabled(w, DiscardFile) && Sane(Step(w, DiscardFile))
    ensures var v, events := Step(w, DiscardFile), Retry([], stored, w.session.value.job);
            && Possible(v, events) && Careful(v, events, t)
            && (Broken(Run(v, events), t, i) <==> !Blank(t, i))
  {
    hide Stands, Fitted, Blank, Sane, Truthful, HeldStand, Retry, Broken, Careful, Possible, Run, Step, Enabled;
    RetryHolds(w, t, [], stored, i);
    NewFileStands(t, i);
  }

  lemma CrashOpen(w: World, left: Bytes, stored: Option<ResumeRecord>)
    requires Sane(w) && w.disk.survives == map[] && stored in w.disk.candidates
    ensures Enabled(w, Crash(left, stored))
    ensures var w' := Step(w, Crash(left, stored));
            Sane(w') && w' == World(w.disk.AfterCrash(left, stored), None)
  {
    StepIsSane(w, Crash(left, stored));
    hide SaneSession, ChunkStep, TornStep;
  }

  /** A session for this object holds a chunk that is not in the file. */
  ghost predicate Broken(w: World, t: Target, i: nat)
    requires Sane(w) && t.ctx.Admitted() && i < t.ctx.chunkCount
  {
    && w.session.Some? && w.session.value.job.ctx == t.ctx && w.session.value.job.root == t.root
    && w.session.value.phase == Receiving && w.session.value.have[i] && !Stands(w.disk.file, t, i)
  }

  ghost predicate Continues(w: World, events: seq<Event>, t: Target) {
    Sane(w) && Possible(w, events) && Careful(w, events, t)
  }

  /**
   After a discard, every way the attempts for this object can go on keeps what they hold
   standing, exactly when no record that a crash may leave claims a chunk.
   */
  lemma DiscardIsSafeIff(w: World, t: Target)
    requires Truth(w, t) && w.session.Some? && w.session.value.phase == Discarding
    ensures Enabled(w, DiscardFile) && Sane(Step(w, DiscardFile))
    ensures var v := Step(w, DiscardFile);
            (forall events :: Continues(v, events, t) ==> HeldStand(Run(v, events), t)) <==> NothingClaimed(w.disk, t)
  {
    hide AllowedChunkSize, HeldBytes, Stands, Truthful, SaneSession, Certain, Step, Possible, Run, Careful, Disk.Valid;
    GoneFile(w);
    var v := Step(w, DiscardFile);
    if NothingClaimed(w.disk, t) {
      TruthDiscard(w, DiscardFile, t);
      forall events | Continues(v, events, t) ensures HeldStand(Run(v, events), t) {
        RunKeepsTruth(v, events, t);
      }
    } else {
      var stored, i := SomeClaim(w.disk, t);
      var left := ClaimBreaks(w, t, stored, i);
      var events := Retry(left, stored, w.session.value.job);
      assert Continues(v, events, t) && !HeldStand(Run(v, events), t);
    }
  }

  lemma SomeClaim(disk: Disk, t: Target) returns (stored: ResumeRecord, i: nat)
    requires disk.Valid() && !NothingClaimed(disk, t)
    ensures Some(stored) in disk.candidates && stored.WellFormed() && stored.identity.Matches(t.Identity())
    ensures i < t.ctx.chunkCount && stored.durable[i]
  {
    var c :| c in disk.candidates && !ClaimsNothing(c, t);
    stored := c.value;
    i :| i < t.ctx.chunkCount && stored.durable[i];
  }

  /** A false digest leads from a fresh destination to a discard, with a record that names the first chunk. */
  lemma DiscardIsReached(w: World, job: Job, file: Bytes)
    returns (events: seq<Event>, x: World, stored: ResumeRecord)
    requires var t := Target(job.ctx, job.root); Untouched(w, t) && Honest(t, job.schedule, file)
    requires 2 <= job.ctx.chunkCount <= DECODABLE_LEAVES && job.digest != Sender.Digest(file)
    ensures var t := Target(job.ctx, job.root);
            && Leads(w, events, x, t) && Truth(x, t)
            && x.session.Some? && x.session.value.phase == Discarding && x.session.value.job == job
            && Some(stored) in x.disk.candidates && stored.identity.Matches(t.Identity())
            && |stored.durable| == job.ctx.chunkCount && stored.durable[0]
  {
    var t := Target(job.ctx, job.root);
    UntouchedIsTrue(w, t);
    hide AllowedChunkSize, HeldBytes, Honest, SaneSession, Stands, Certain, Truthful, HeldStand,
         Possible, Run, Careful, Step, Enabled;
    var a, v := FirstAttempt(w, job, file);
    RunKeepsTruth(w, a, t);
    var b, u := SecondAttempt(v, job, file);
    RunKeepsTruth(v, b, t);
    x := Rejected(u, t, job.schedule, file);
    LeadsOn(w, a, v, b, u, t);
    LeadsOn(w, a + b, u, [Decide], x, t);
    events := a + b + [Decide];
    stored := u.disk.record.value;
  }

  /**
   And it does happen: for every honest root of two or more chunks, a false digest can be
   followed by a discard, a crash and a new attempt that holds a chunk it does not have. The
   crash leaves no file, unless the first chunk is all zeros.
   */
  lemma FalseDigestBreaks(w: World, job: Job, file: Bytes)
    returns (events: seq<Event>, left: Bytes, stored: ResumeRecord)
    requires var t := Target(job.ctx, job.root); Untouched(w, t) && Honest(t, job.schedule, file)
    requires 2 <= job.ctx.chunkCount <= DECODABLE_LEAVES && job.digest != Sender.Digest(file)
    ensures |events| >= 2 && events[|events| - 2..] == Retry(left, stored, job)
    ensures Possible(w, events) && Broken(Run(w, events), Target(job.ctx, job.root), 0)
    ensures left == [] <==> !Blank(Target(job.ctx, job.root), 0)
  {
    hide AllowedChunkSize, Honest, Sane, SaneSession, Truthful, HeldStand, Possible, Run, Careful, Step, Enabled,
         Broken, Blank;
    var t := Target(job.ctx, job.root);
    UntouchedIsTrue(w, t);
    var x, first;
    first, x, stored := DiscardIsReached(w, job, file);
    left := ClaimBreaks(x, t, stored, 0);
    var rest := Retry(left, stored, job);
    OneStep(x, DiscardFile);
    RunOn(x, [DiscardFile], rest);
    RunOn(w, first, [DiscardFile] + rest);
    events := first + ([DiscardFile] + rest);
  }
}
