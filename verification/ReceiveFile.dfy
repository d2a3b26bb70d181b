/**
 The receive loop itself (`receive_file`): local variables, the resume database and the file,
 updated frame by frame. Each call is shown to be a run of the receiver's machine, so all that
 is proved of runs holds of it, and to end as its frames and system calls decide.
 */
module ReceiveFile {
  import opened Octets
  import opened Merkle
  import opened Geometry
  import opened Chunks
  import opened Storage
  import opened Receiver
  import opened ReceiverRuns
  import opened Outcomes
  import B = Bitmap
  import Sender

  /** A progress event of the receiving side; the totals beside it are the object's size and chunk count. */
  datatype Progress = Progress(bytes: nat, chunks: nat)

  ghost function ProgressOf(ctx: ObjectContext, have: seq<bool>): Progress
    requires ctx.Admitted() && |have| == ctx.chunkCount
  {
    Progress(HeldBytes(ctx, have, ctx.chunkCount), B.Count(have))
  }

  /** Each report is of one more chunk than the last, within the totals, and reaches both together. */
  ghost predicate Accurate(ctx: ObjectContext, p: seq<Progress>) {
    && (forall k :: 0 <= k < |p| ==>
          && p[k].bytes <= ctx.size && p[k].chunks <= ctx.chunkCount
          && (p[k].bytes == ctx.size <==> p[k].chunks == ctx.chunkCount))
    && (forall k :: 0 < k < |p| ==> p[k - 1].bytes < p[k].bytes && p[k].chunks == p[k - 1].chunks + 1)
  }

  lemma ProgressBounds(ctx: ObjectContext, have: seq<bool>)
    requires ctx.Admitted() && |have| == ctx.chunkCount
    ensures Accurate(ctx, [ProgressOf(ctx, have)])
    ensures Complete(have) ==> ProgressOf(ctx, have) == Progress(ctx.size, ctx.chunkCount)
  {
    hide AllowedChunkSize, HeldBytes, B.Count;
    HeldAll(ctx, have, ctx.chunkCount);
    B.CountBounds(have);
  }

  lemma ProgressMoves(ctx: ObjectContext, have: seq<bool>, index: nat)
    requires ctx.Admitted() && |have| == ctx.chunkCount && index < ctx.chunkCount && !have[index]
    ensures var a, b := ProgressOf(ctx, have), ProgressOf(ctx, have[index := true]);
            a.bytes < b.bytes == a.bytes + ctx.Len(index) && b.chunks == a.chunks + 1
  {
    hide AllowedChunkSize, HeldBytes, B.Count;
    HeldMore(ctx, have, index, ctx.chunkCount);
    ChunksMeet(ctx, index);
    B.CountSet(have, index);
  }

  lemma ReportCounts(ctx: ObjectContext, have: seq<bool>, index: nat)
    requires ctx.Admitted() && |have| == ctx.chunkCount && index < ctx.chunkCount && !have[index]
    ensures ProgressOf(ctx, have[index := true]).chunks == B.Count(have[index := true]) == B.Count(have) + 1
  {
    hide AllowedChunkSize, HeldBytes, B.Count;
    B.CountSet(have, index);
  }

  /** One more report, on the chunk just taken. */
  lemma AccurateMore(ctx: ObjectContext, p: seq<Progress>, have: seq<bool>, index: nat)
    requires ctx.Admitted() && |have| == ctx.chunkCount && index < ctx.chunkCount && !have[index]
    requires Accurate(ctx, p) && (p != [] ==> p[|p| - 1] == ProgressOf(ctx, have))
    ensures Accurate(ctx, p + [ProgressOf(ctx, have[index := true])])
  {
    hide AllowedChunkSize, HeldBytes, ProgressOf;
    ProgressMoves(ctx, have, index);
    ProgressBounds(ctx, have[index := true]);
    var last := ProgressOf(ctx, have[index := true]);
    assert [last][0] == last;
  }

  ghost function DbView(db: Option<ResumeDb>): Option<Db>
    reads if db.Some? then {db.value} else {}
  {
    if db.Some? then Some(Db(db.value.record, db.value.pending)) else None
  }

  ghost function View(job: Job, db: Option<ResumeDb>, have: seq<bool>, streaming: Option<(Bytes, nat)>,
                      verifiedBytes: nat): Session
    reads if db.Some? then {db.value} else {}
  {
    Session(job, DbView(db), have, streaming, verifiedBytes, Receiving)
  }

  /** What decides how the attempt goes on. */
  ghost function CourseOf(volume: Volume, db: Option<ResumeDb>, have: seq<bool>): Course
    reads volume, if db.Some? then {db.value} else {}
  {
    Course(have, volume.disk.file, if db.Some? then Some(db.value.pending) else None)
  }

  /** The outcome of a step: it goes on with this course, or ends with this error. */
  ghost predicate GoesOn(expected: Result<Course, ReceiveError>, r: Result<(), ReceiveError>, c: Course) {
    if expected.Ok? then r == Ok(()) && c == expected.value else r == Err(expected.error)
  }

  lemma ReadyIsValid(w: World)
    requires Sane(w) && w.session.Some? && w.session.value.phase == Receiving
    ensures var s := w.session.value;
            Course(s.have, w.disk.file, if s.db.Some? then Some(s.db.value.pending) else None).Valid(s.job)
  {
    hide AllowedChunkSize, HeldBytes, SaneStream;
  }

  ghost predicate Ready(volume: Volume, job: Job, db: Option<ResumeDb>, have: seq<bool>,
                        streaming: Option<(Bytes, nat)>, verifiedBytes: nat)
    reads volume, if db.Some? then {db.value} else {}
  {
    && (db.Some? ==> db.value.Valid() && db.value.interval == CHECKPOINT_INTERVAL)
    && Sane(World(volume.disk, Some(View(job, db, have, streaming, verifiedBytes))))
  }

  // --- Steps of the machine the loop takes ---

  lemma Stops(w: World)
    requires Sane(w) && w.session.Some?
    ensures Possible(w, [Interrupt]) && Run(w, [Interrupt]) == World(w.disk, None)
  {
    OneStep(w, Interrupt);
    hide Possible, Run, SaneSession, Disk.Valid, ChunkStep, TornStep;
  }

  lemma Ignored(w: World, payload: Bytes)
    requires Sane(w) && w.session.Some? && w.session.value.phase == Receiving
    requires Check(w.session.value.job, w.session.value.have, payload) == Ok(None)
    ensures Possible(w, [Chunk(payload)]) && Run(w, [Chunk(payload)]) == w
  {
    OneStep(w, Chunk(payload));
    hide Possible, Run, Check, TornStep, AllowedChunkSize, HeldBytes, SaneStream;
  }

  lemma Torn(w: World, payload: Bytes, n: nat)
    requires Sane(w) && w.session.Some? && w.session.value.phase == Receiving
    requires var r := Check(w.session.value.job, w.session.value.have, payload);
             r.Ok? && r.value.Some? && n <= |r.value.value.1|
    ensures var ctx := w.session.value.job.ctx;
            var (index, plaintext) := Check(w.session.value.job, w.session.value.have, payload).value.value;
            && index < ctx.chunkCount && ctx.Start(index) + n <= |w.disk.file|
            && Possible(w, [TornChunk(payload, n)])
            && Run(w, [TornChunk(payload, n)]) == World(w.disk.Write(ctx.Start(index), plaintext[..n]), None)
  {
    OneStep(w, TornChunk(payload, n));
    hide Possible, Run, Check, ChunkStep, AllowedChunkSize, HeldBytes, SaneStream;
    AcceptedFits(w.session.value.job, w.session.value.have, payload);
  }

  lemma Taken(w: World, payload: Bytes)
    requires Sane(w) && w.session.Some? && w.session.value.phase == Receiving
    requires var r := Check(w.session.value.job, w.session.value.have, payload); r.Ok? && r.value.Some?
    ensures var s := w.session.value;
            var (index, plaintext) := Check(s.job, s.have, payload).value.value;
            && index < |s.have| && s.job.ctx.Start(index) + |plaintext| <= |w.disk.file| && !s.have[index]
            && (s.db.Some? ==> |s.db.value.record.durable| == |s.have| == |s.db.value.record.verified|)
            && Possible(w, [Chunk(payload)])
            && Run(w, [Chunk(payload)]) ==
                World(w.disk.Write(s.job.ctx.Start(index), plaintext), Some(Accept(s, index, plaintext)))
  {
    OneStep(w, Chunk(payload));
    hide Possible, Run, Check, TornStep, AllowedChunkSize, HeldBytes, SaneStream, Accept, Directions, Committed;
    AcceptedIsCommitted(w.session.value.job, w.session.value.have, payload);
    AcceptedFits(w.session.value.job, w.session.value.have, payload);
  }

  /** After an accepted chunk: a checkpoint is made if one is due, and a failure ends the session. */
  ghost function Settled(w: World, luck: Luck): World
    requires Sane(w) && w.session.Some? && w.session.value.phase in {Receiving, SyncDue(KeepReceiving)}
  {
    var s := w.session.value;
    if s.phase == Receiving then w
    else if !luck.sync then World(w.disk, None)
    else if luck.checkpoint.Fails? then World(w.disk.Sync(), None)
    else World(w.disk.Sync().Commit(s.db.value.record, luck.checkpoint.directorySynced),
               Some(s.(db := Some(s.db.value.(pending := 0)), phase := Receiving)))
  }

  lemma Settles(w: World, luck: Luck) returns (events: seq<Event>)
    requires Sane(w) && w.session.Some? && w.session.value.phase in {Receiving, SyncDue(KeepReceiving)}
    ensures Possible(w, events) && Run(w, events) == Settled(w, luck) && Sane(Settled(w, luck))
  {
    hide AllowedChunkSize, HeldBytes, SaneStream, Complete, Disk.Valid, Disk.Sync, ChunkStep, TornStep, Possible, Run;
    if w.session.value.phase == Receiving {
      assert Possible(w, []) && Run(w, []) == w by { Nothing(w); }
      return [];
    }
    if !luck.sync {
      Stops(w);
      return [Interrupt];
    }
    OneStep(w, SyncFile);
    var v := Step(w, SyncFile);
    if luck.checkpoint.Fails? {
      Stops(v);
      RunOn(w, [SyncFile], [Interrupt]);
      return [SyncFile] + [Interrupt];
    }
    OneStep(v, CommitRecord(luck.checkpoint.directorySynced));
    RunOn(w, [SyncFile], [CommitRecord(luck.checkpoint.directorySynced)]);
    return [SyncFile] + [CommitRecord(luck.checkpoint.directorySynced)];
  }

  lemma Nothing(w: World)
    requires Sane(w)
    ensures Possible(w, []) && Run(w, []) == w
  {
    hide Sane;
  }

  // --- The loop ---

  /** The plaintext digest of the file as persisted, read back buffer by buffer. */
  method ReadBack(volume: Volume) returns (digest: Bytes)
    ensures digest == Sender.Digest(volume.disk.file)
  {
    var hashed: Bytes, pos: nat := [], 0;
    var n: nat := if |volume.disk.file| < 0x10_0000 then |volume.disk.file| else 0x10_0000;
    while n != 0
      invariant pos + n <= |volume.disk.file| && hashed == volume.disk.file[..pos]
      invariant n == 0 ==> pos == |volume.disk.file|
      invariant pos <= |volume.disk.file|
      decreases |volume.disk.file| - pos
    {
      hashed := hashed + volume.disk.file[pos..pos + n];
      pos := pos + n;
      var left := |volume.disk.file| - pos;
      n := if left < 0x10_0000 then left else 0x10_0000;
    }
    assert volume.disk.file[..pos] == volume.disk.file;
    digest := Sender.Digest(hashed);
  }

  lemma WrittenIsPlaced(disk: Disk, ctx: ObjectContext, index: nat, plaintext: Bytes)
    requires ctx.Start(index) + |plaintext| <= |disk.file|
    ensures var after := disk.Write(ctx.Start(index), plaintext);
            && after.file == Placed(ctx, disk.file, index, plaintext) && after.Sync().file == after.file
            && forall r, synced :: after.Sync().Commit(r, synced).file == after.file
  {
  }

  /** A chunk that passed every check: written, marked, hashed if in order, and checkpointed if due. */
  method TakeChunk(volume: Volume, job: Job, db: Option<ResumeDb>, have: seq<bool>, streaming: Option<(Bytes, nat)>,
                   verifiedBytes: nat, ghost payload: Bytes, index: nat, plaintext: Bytes, luck: Luck)
    returns (r: Result<(), ReceiveError>, have': seq<bool>, streaming': Option<(Bytes, nat)>, verifiedBytes': nat,
             report: Option<Progress>, ghost events: seq<Event>)
    requires Ready(volume, job, db, have, streaming, verifiedBytes)
    requires Check(job, have, payload) == Ok(Some((index, plaintext)))
    modifies volume, if db.Some? then {db.value} else {}
    ensures var w := old(World(volume.disk, Some(View(job, db, have, streaming, verifiedBytes))));
            && Possible(w, events)
            && Run(w, events) == World(volume.disk,
                                       if r.Ok? then Some(View(job, db, have', streaming', verifiedBytes')) else None)
    ensures r.Ok? ==> Ready(volume, job, db, have', streaming', verifiedBytes')
    ensures index < |have| == |have'| && !have[index] && have' == have[index := true]
    ensures old(CourseOf(volume, db, have)).Valid(job) && job.ctx.Start(index) + |plaintext| <= job.ctx.size
    ensures GoesOn(Accepted(job, old(CourseOf(volume, db, have)), index, plaintext, luck.(tearsAt := None)), r,
                   CourseOf(volume, db, have'))
    ensures report == if luck.routeRefused then None else Some(ProgressOf(job.ctx, have'))
  {
    hide AllowedChunkSize, HeldBytes, SaneStream, Complete, Disk.Valid, Disk.Write, Disk.Sync, Disk.Commit, Possible,
         Run, Check,
         B.Count, Directions, Committed;
    ghost var w := World(volume.disk, Some(View(job, db, have, streaming, verifiedBytes)));
    Taken(w, payload);
    ReadyIsValid(w);
    AcceptedFits(job, have, payload);
    AcceptedIsCommitted(job, have, payload);
    ProgressMoves(job.ctx, have, index);
    WrittenIsPlaced(volume.disk, job.ctx, index, plaintext);
    volume.disk := volume.disk.Write(job.ctx.Start(index), plaintext);
    if db.Some? {
      var _ := db.value.MarkVerified(index);
    }
    have', streaming', verifiedBytes', report := have[index := true], streaming, verifiedBytes, None;
    if luck.routeRefused {
      Torn(w, payload, |plaintext|);
      assert plaintext[..|plaintext|] == plaintext;
      return Err(RouteRefused), have', streaming', verifiedBytes', report, [TornChunk(payload, |plaintext|)];
    }
    if streaming.Some? {
      streaming' := if streaming.value.1 == index then Some((streaming.value.0 + plaintext, index + 1)) else None;
    }
    verifiedBytes' := verifiedBytes + |plaintext|;
    report := Some(Progress(verifiedBytes', B.Count(have')));
    r := Ok(());
    if db.Some? {
      var written := db.value.ChunkWritten(volume, index, luck.sync, luck.checkpoint);
      if written.Err? {
        r := Err(IoFailed);
      }
    }
    ghost var rest := Settles(Run(w, [Chunk(payload)]), luck);
    RunOn(w, [Chunk(payload)], rest);
    events := [Chunk(payload)] + rest;
  }

  predicate Taking(job: Job, have: seq<bool>, payload: Bytes)
    requires job.ctx.Admitted() && |have| == job.ctx.chunkCount
  {
    Check(job, have, payload).Ok? && Check(job, have, payload).value.Some?
  }

  /**
   One chunk frame. An error ends the session; whatever was written stays. Progress is reported
   for a chunk that is verified, written and still on an admitted route, before any checkpoint.
   */
  method HandleChunk(volume: Volume, job: Job, db: Option<ResumeDb>, have: seq<bool>, streaming: Option<(Bytes, nat)>,
                     verifiedBytes: nat, payload: Bytes, luck: Luck)
    returns (r: Result<(), ReceiveError>, have': seq<bool>, streaming': Option<(Bytes, nat)>, verifiedBytes': nat,
             report: Option<Progress>, ghost events: seq<Event>)
    requires Ready(volume, job, db, have, streaming, verifiedBytes)
    modifies volume, if db.Some? then {db.value} else {}
    ensures var w := old(World(volume.disk, Some(View(job, db, have, streaming, verifiedBytes))));
            && Possible(w, events)
            && Run(w, events) == World(volume.disk,
                                       if r.Ok? then Some(View(job, db, have', streaming', verifiedBytes')) else None)
    ensures r.Ok? ==> Ready(volume, job, db, have', streaming', verifiedBytes')
    ensures Check(job, have, payload).Err? ==>
            r == Err(Refused(Check(job, have, payload).error)) && volume.disk == old(volume.disk)
    ensures old(CourseOf(volume, db, have)).Valid(job)
    ensures GoesOn(AfterChunk(job, old(CourseOf(volume, db, have)), payload, luck), r, CourseOf(volume, db, have'))
    ensures if Taking(job, have, payload) && luck.tearsAt.None? && !luck.routeRefused
            then var index := Check(job, have, payload).value.value.0;
                 && index < |have| == |have'| && !have[index] && have' == have[index := true]
                 && report == Some(ProgressOf(job.ctx, have'))
            else report.None? && (r.Ok? ==> have' == have)
  {
    hide AllowedChunkSize, HeldBytes, SaneStream, Complete, Disk.Valid, Disk.Write, Possible, Run, Check, Placed;
    ghost var w := World(volume.disk, Some(View(job, db, have, streaming, verifiedBytes)));
    ReadyIsValid(w);
    have', streaming', verifiedBytes', report := have, streaming, verifiedBytes, None;
    var checked := Check(job, have, payload);
    if checked.Err? {
      Stops(w);
      return Err(Refused(checked.error)), have', streaming', verifiedBytes', report, [Interrupt];
    }
    if checked.value.None? {
      Ignored(w, payload);
      return Ok(()), have', streaming', verifiedBytes', report, [Chunk(payload)];
    }
    var index, plaintext := checked.value.value.0, checked.value.value.1;
    if luck.tearsAt.Some? {
      var n := if luck.tearsAt.value < |plaintext| then luck.tearsAt.value else |plaintext|;
      Torn(w, payload, n);
      AcceptedFits(job, have, payload);
      volume.disk := volume.disk.Write(job.ctx.Start(index), plaintext[..n]);
      return Err(IoFailed), have', streaming', verifiedBytes', report, [TornChunk(payload, n)];
    }
    r, have', streaming', verifiedBytes', report, events :=
      TakeChunk(volume, job, db, have, streaming, verifiedBytes, payload, index, plaintext, luck);
  }

  // --- After the last frame ---

  /** The machine's worlds at the end of the stream, for given outcomes of the system calls. */
  lemma EndsShort(w: World, luck: Luck) returns (events: seq<Event>)
    requires Sane(w) && w.session.Some? && w.session.value.phase == Receiving && !Complete(w.session.value.have)
    ensures Possible(w, events)
    ensures Run(w, events) ==
            if w.session.value.db.None? || !luck.sync then World(w.disk, None)
            else if luck.checkpoint.Fails? then World(w.disk.Sync(), None)
            else World(w.disk.Sync().Commit(w.session.value.db.value.record, luck.checkpoint.directorySynced), None)
  {
    hide AllowedChunkSize, HeldBytes, SaneStream, Complete, Disk.Valid, Disk.Sync, ChunkStep, TornStep, Possible, Run;
    OneStep(w, StreamEnd);
    events := [StreamEnd];
    if w.session.value.db.None? {
      return;
    }
    var v := Step(w, StreamEnd);
    var rest := GivesUp(v, luck);
    RunOn(w, events, rest);
    events := events + rest;
  }

  lemma GivesUp(w: World, luck: Luck) returns (events: seq<Event>)
    requires Sane(w) && w.session.Some? && w.session.value.phase == SyncDue(GiveUp)
    ensures Possible(w, events) && w.session.value.db.Some?
    ensures Run(w, events) ==
            if !luck.sync then World(w.disk, None)
            else if luck.checkpoint.Fails? then World(w.disk.Sync(), None)
            else World(w.disk.Sync().Commit(w.session.value.db.value.record, luck.checkpoint.directorySynced), None)
  {
    hide AllowedChunkSize, HeldBytes, SaneStream, Complete, Disk.Valid, Disk.Sync, ChunkStep, TornStep, Possible, Run;
    if !luck.sync {
      Stops(w);
      return [Interrupt];
    }
    OneStep(w, SyncFile);
    var v := Step(w, SyncFile);
    if luck.checkpoint.Fails? {
      Stops(v);
      RunOn(w, [SyncFile], [Interrupt]);
      return [SyncFile] + [Interrupt];
    }
    OneStep(v, CommitRecord(luck.checkpoint.directorySynced));
    RunOn(w, [SyncFile], [CommitRecord(luck.checkpoint.directorySynced)]);
    return [SyncFile] + [CommitRecord(luck.checkpoint.directorySynced)];
  }

  /** A complete object, synced, reaches the verdict on the digest of what is on disk. */
  lemma ReachesVerdict(w: World) returns (events: seq<Event>, v: World)
    requires Sane(w) && w.session.Some? && w.session.value.phase == Receiving && Complete(w.session.value.have)
    ensures Possible(w, events) && Run(w, events) == v && Sane(v)
    ensures FinalDigest(w.session.value, w.disk.file) == Sender.Digest(w.disk.file)
    ensures var ok := Sender.Digest(w.disk.file) == w.session.value.job.digest;
            v == World(w.disk.Sync(), Some(w.session.value.(phase := if ok then Finishing else Discarding)))
  {
    OneStep(w, StreamEnd);
    var a := Step(w, StreamEnd);
    OneStep(a, SyncFile);
    var b := Step(a, SyncFile);
    SaneDecide(b, Decide);
    OneStep(b, Decide);
    v := Step(b, Decide);
    hide AllowedChunkSize, HeldBytes, SaneStream, Complete, Disk.Valid, ChunkStep, TornStep, Possible, Run;
    RunOn(w, [StreamEnd], [SyncFile]);
    RunOn(w, [StreamEnd] + [SyncFile], [Decide]);
    events := [StreamEnd] + [SyncFile] + [Decide];
  }

  lemma Discards(w: World, removals: Removals) returns (events: seq<Event>)
    requires Sane(w) && w.session.Some? && w.session.value.phase == Discarding
    ensures Possible(w, events)
    ensures var disk := if removals.file then w.disk.RemoveFile() else w.disk;
            Run(w, events) == World(if w.session.value.db.Some? && removals.record then disk.RemoveRecord() else disk,
                                    None)
  {
    hide AllowedChunkSize, HeldBytes, SaneStream, Complete, Disk.Valid, ChunkStep, TornStep, Possible, Run;
    var last := if removals.record then ForgetRecord else Interrupt;
    if removals.file {
      OneStep(w, DiscardFile);
      OneStep(Step(w, DiscardFile), last);
      RunOn(w, [DiscardFile], [last]);
      events := [DiscardFile] + [last];
    } else {
      OneStep(w, last);
      events := [last];
    }
  }

  lemma Completes(w: World, removals: Removals) returns (events: seq<Event>)
    requires Sane(w) && w.session.Some? && w.session.value.phase == Finishing
    ensures Possible(w, events)
    ensures Run(w, events) ==
            if w.session.value.db.None? then World(w.disk, Some(w.session.value.(phase := Done)))
            else if removals.record then World(w.disk.RemoveRecord(), Some(w.session.value.(phase := Done)))
            else World(w.disk, None)
  {
    hide AllowedChunkSize, HeldBytes, SaneStream, Complete, Disk.Valid, ChunkStep, TornStep, Possible, Run;
    var last := if w.session.value.db.None? || removals.record then ForgetRecord else Interrupt;
    OneStep(w, last);
    events := [last];
  }

  /** What the end of the stream leaves on disk. */
  ghost function EndDisk(disk: Disk, db: Option<Db>, r: Result<Bytes, ReceiveError>, luck: Luck, removals: Removals)
    : Disk
  {
    match r
    case Ok(_) => if db.Some? then disk.Sync().RemoveRecord() else disk.Sync()
    case Err(Incomplete) =>
      if db.Some? && luck.checkpoint.Succeeds?
      then disk.Sync().Commit(db.value.record, luck.checkpoint.directorySynced)
      else disk
    case Err(DigestMismatch) =>
      var left := if removals.file then disk.Sync().RemoveFile() else disk.Sync();
      if db.Some? && removals.record then left.RemoveRecord() else left
    case Err(_) => if luck.sync then disk.Sync() else disk
  }

  lemma EndsClean(disk: Disk, db: Option<Db>, r: Result<Bytes, ReceiveError>, luck: Luck, removals: Removals)
    ensures var left := EndDisk(disk, db, r, luck, removals);
            && (r.Ok? && db.Some? ==> left.record.None?)
            && (r == Err(DigestMismatch) ==>
                  (removals.file ==> left.file == []) && (db.Some? && removals.record ==> left.record.None?))
  {
  }

  /** What follows the end of the stream: the checkpoint of a partial object, or the verdict on a whole one. */
  method Finish(volume: Volume, job: Job, db: Option<ResumeDb>, have: seq<bool>, streaming: Option<(Bytes, nat)>,
                verifiedBytes: nat, luck: Luck, removals: Removals)
    returns (r: Result<Bytes, ReceiveError>, ghost events: seq<Event>)
    requires Ready(volume, job, db, have, streaming, verifiedBytes)
    modifies volume, if db.Some? then {db.value} else {}
    ensures var w := old(World(volume.disk, Some(View(job, db, have, streaming, verifiedBytes))));
            && Possible(w, events) && Run(w, events).disk == volume.disk
            && (if r.Ok? then Run(w, events).session.Some? && Run(w, events).session.value.phase == Done
                else Run(w, events).session.None?)
    ensures r == AtEnd(job, old(CourseOf(volume, db, have)), luck, removals)
    ensures r.Ok? ==> r.value == job.digest == Sender.Digest(volume.disk.file)
    ensures volume.disk == EndDisk(old(volume.disk), old(DbView(db)), r, luck, removals)
  {
    hide AllowedChunkSize, HeldBytes, SaneStream, Disk.Valid, Disk.Sync, Disk.RemoveFile, Possible, Run, Sender.Digest,
         FinalDigest;
    ghost var w := World(volume.disk, Some(View(job, db, have, streaming, verifiedBytes)));
    var complete := forall i :: 0 <= i < |have| ==> have[i];
    if !complete {
      events := EndsShort(w, luck);
      if db.Some? {
        if !luck.sync {
          return Err(IoFailed), events;
        }
        volume.disk := volume.disk.Sync();
        var saved := db.value.Checkpoint(volume, luck.checkpoint);
        if saved.Err? {
          return Err(IoFailed), events;
        }
      }
      return Err(Incomplete), events;
    }
    if !luck.sync {
      Stops(w);
      return Err(IoFailed), [Interrupt];
    }
    ghost var v;
    events, v := ReachesVerdict(w);
    SyncedFile(volume.disk);
    volume.disk := volume.disk.Sync();
    var digest;
    if streaming.Some? && streaming.value.1 == job.ctx.chunkCount {
      digest := Sender.Digest(streaming.value.0);
      assert digest == FinalDigest(w.session.value, w.disk.file) by { Streamed(w.session.value, w.disk.file); }
    } else {
      digest := ReadBack(volume);
    }
    ghost var last;
    if digest != job.digest {
      last := Discards(v, removals);
      RunOn(w, events, last);
      if removals.file {
        volume.disk := volume.disk.RemoveFile();
      }
      if db.Some? && removals.record {
        volume.disk := volume.disk.RemoveRecord();
      }
      return Err(DigestMismatch), events + last;
    }
    last := Completes(v, removals);
    RunOn(w, events, last);
    if db.Some? {
      if !removals.record {
        return Err(IoFailed), events + last;
      }
      volume.disk := volume.disk.RemoveRecord();
    }
    return Ok(digest), events + last;
  }

  lemma SyncedFile(disk: Disk)
    ensures disk.Sync().file == disk.file
  {
  }

  lemma Streamed(s: Session, file: Bytes)
    requires s.streaming.Some? && s.streaming.value.1 == s.job.ctx.chunkCount
    ensures FinalDigest(s, file) == Sender.Digest(s.streaming.value.0)
  {
  }

  /** The bytes already verified when an attempt starts. */
  method StartingBytes(ctx: ObjectContext, have: seq<bool>) returns (total: nat)
    requires ctx.Admitted() && |have| == ctx.chunkCount
    ensures total == HeldBytes(ctx, have, ctx.chunkCount)
  {
    hide AllowedChunkSize;
    total := 0;
    for i := 0 to ctx.chunkCount
      invariant total == HeldBytes(ctx, have, i)
    {
      if have[i] {
        total := total + ctx.Len(i);
      }
    }
  }

  /** Opening: the record decides what is held, and the file gets its length. */
  method OpenDestination(volume: Volume, job: Job, useDb: bool, readable: bool)
    returns (db: Option<ResumeDb>, have: seq<bool>, verifiedBytes: nat, ghost events: seq<Event>)
    requires volume.disk.Valid() && job.ctx.Admitted()
    modifies volume
    ensures db.Some? == useDb && (db.Some? ==> fresh(db.value))
    ensures Ready(volume, job, db, have, Some(([], 0)), verifiedBytes) && |have| == job.ctx.chunkCount
    ensures var w := World(old(volume.disk), None);
            Possible(w, events) && Run(w, events) ==
                World(volume.disk, Some(View(job, db, have, Some(([], 0)), verifiedBytes)))
    ensures CourseOf(volume, db, have) == Opening(old(volume.disk), job, useDb, readable)
  {
    ghost var w := World(volume.disk, None);
    ghost var e := Begin(job, useDb, readable);
    OneStep(w, e);
    hide AllowedChunkSize, HeldBytes, SaneStream, Disk.Valid, Disk.Resize, Possible, Run, ChunkStep, TornStep;
    if useDb {
      var opened' := new ResumeDb.Open(volume, job.Identity(), readable, CHECKPOINT_INTERVAL);
      db := Some(opened');
      have := opened'.record.durable;
    } else {
      db := None;
      have := seq(job.ctx.chunkCount, _ => false);
    }
    volume.disk := volume.disk.Resize(job.ctx.size);
    verifiedBytes := StartingBytes(job.ctx, have);
    events := [e];
  }

  /** The reports so far: one for each chunk taken since the start, the last one of what is held now. */
  ghost predicate Tracked(ctx: ObjectContext, start: seq<bool>, have: seq<bool>, p: seq<Progress>)
    requires ctx.Admitted() && |have| == ctx.chunkCount
  {
    && Accurate(ctx, p) && (p != [] ==> p[|p| - 1] == ProgressOf(ctx, have))
    && B.Count(have) == B.Count(start) + |p|
    && forall k :: 0 <= k < |p| ==> p[k].chunks == B.Count(start) + k + 1
  }

  lemma NoReports(ctx: ObjectContext, have: seq<bool>)
    requires ctx.Admitted() && |have| == ctx.chunkCount
    ensures Tracked(ctx, have, have, [])
  {
    hide ObjectContext.Admitted, B.Count;
  }

  lemma TrackedMore(ctx: ObjectContext, start: seq<bool>, p: seq<Progress>, have: seq<bool>, index: nat)
    requires ctx.Admitted() && |have| == ctx.chunkCount && index < ctx.chunkCount && !have[index]
    requires Tracked(ctx, start, have, p)
    ensures Tracked(ctx, start, have[index := true], p + [ProgressOf(ctx, have[index := true])])
  {
    hide ObjectContext.Admitted, B.Count, ProgressOf, Accurate;
    AccurateMore(ctx, p, have, index);
    ReportCounts(ctx, have, index);
  }

  lemma TrackedEnds(ctx: ObjectContext, start: seq<bool>, have: seq<bool>, p: seq<Progress>)
    requires ctx.Admitted() && |have| == ctx.chunkCount && Tracked(ctx, start, have, p)
    ensures Accurate(ctx, p) && forall k :: 0 <= k < |p| ==> p[k].chunks == B.Count(start) + k + 1
    ensures Complete(have) ==> B.Count(start) + |p| == ctx.chunkCount
    ensures Complete(have) && p != [] ==> p[|p| - 1] == Progress(ctx.size, ctx.chunkCount)
  {
    hide ObjectContext.Admitted, B.Count, ProgressOf, Accurate;
    ProgressBounds(ctx, have);
    B.CountBounds(have);
  }

  /**
   The whole attempt over the frames that arrive. It is a run of the machine, it succeeds only
   with the digest the sender claimed, and the progress it reports is honest.
   */
  method Receive(volume: Volume, job: Job, useDb: bool, readable: bool, frames: seq<Frame>, luck: seq<Luck>,
                 removals: Removals)
    returns (r: Result<Bytes, ReceiveError>, progress: seq<Progress>, ghost events: seq<Event>)
    requires volume.disk.Valid() && job.ctx.Admitted() && |luck| == |frames|
    modifies volume
    ensures var w := World(old(volume.disk), None);
            && Possible(w, events) && Run(w, events).disk == volume.disk
            && (if r.Ok? then Run(w, events).session.Some? && Run(w, events).session.value.phase == Done
                else Run(w, events).session.None?)
    ensures r == Verdict(job, Opening(old(volume.disk), job, useDb, readable), frames, luck, removals, 0)
    ensures r.Ok? ==> r.value == job.digest == Sender.Digest(volume.disk.file) && (useDb ==> volume.disk.record.None?)
    ensures r == Err(DigestMismatch) ==>
              (removals.file ==> volume.disk.file == []) && (useDb && removals.record ==> volume.disk.record.None?)
    ensures Accurate(job.ctx, progress)
    ensures var held := B.Count(Opening(old(volume.disk), job, useDb, readable).have);
            && (forall k :: 0 <= k < |progress| ==> progress[k].chunks == held + k + 1)
            && (r.Ok? ==> held + |progress| == job.ctx.chunkCount)
    ensures r.Ok? && progress != [] ==> progress[|progress| - 1] == Progress(job.ctx.size, job.ctx.chunkCount)
  {
    hide ProgressOf, Accurate, AllowedChunkSize, HeldBytes, SaneSession, Disk.Valid, Possible, Run, Sender.Digest,
         Check, AfterChunk, AtEnd, EndDisk, Opening, Course.Valid, B.Count, Tracked;
    ghost var w := World(volume.disk, None);
    ghost var start := Opening(volume.disk, job, useDb, readable);
    var db, have, verifiedBytes;
    db, have, verifiedBytes, events := OpenDestination(volume, job, useDb, readable);
    var streaming: Option<(Bytes, nat)> := Some(([], 0));
    progress := [];
    NoReports(job.ctx, have);
    for i := 0 to |frames|
      invariant db.Some? ==> fresh(db.value)
      invariant Ready(volume, job, db, have, streaming, verifiedBytes)
      invariant Possible(w, events) &&
                Run(w, events) == World(volume.disk, Some(View(job, db, have, streaming, verifiedBytes)))
      invariant |have| == job.ctx.chunkCount && Tracked(job.ctx, start.have, have, progress)
      invariant db.Some? == useDb && CourseOf(volume, db, have).Valid(job)
      invariant Verdict(job, start, frames, luck, removals, 0) ==
                Verdict(job, CourseOf(volume, db, have), frames, luck, removals, i)
    {
      ghost var rest;
      match frames[i] {
        case ChunkFrame(payload) =>
          var handled, report;
          ghost var held := have;
          handled, have, streaming, verifiedBytes, report, rest :=
            HandleChunk(volume, job, db, have, streaming, verifiedBytes, payload, luck[i]);
          RunOn(w, events, rest);
          events := events + rest;
          if report.Some? {
            TrackedMore(job.ctx, start.have, progress, held, Check(job, held, payload).value.value.0);
            progress := progress + [report.value];
          }
          if handled.Err? {
            TrackedEnds(job.ctx, start.have, if report.Some? then have else held, progress);
            return Err(handled.error), progress, events;
          }
        case EndFrame =>
          EndsClean(volume.disk, DbView(db), AtEnd(job, CourseOf(volume, db, have), luck[i], removals), luck[i],
                    removals);
          r, rest := Finish(volume, job, db, have, streaming, verifiedBytes, luck[i], removals);
          RunOn(w, events, rest);
          events := events + rest;
          TrackedEnds(job.ctx, start.have, have, progress);
          return;
        case UnexpectedFrame =>
          Stops(Run(w, events));
          RunOn(w, events, [Interrupt]);
          TrackedEnds(job.ctx, start.have, have, progress);
          return Err(BadFrameType), progress, events + [Interrupt];
      }
    }
    Stops(Run(w, events));
    RunOn(w, events, [Interrupt]);
    TrackedEnds(job.ctx, start.have, have, progress);
    return Err(ConnectionLost), progress, events + [Interrupt];
  }
}
