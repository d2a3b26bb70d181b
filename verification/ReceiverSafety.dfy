/**
 What the receiver's machine keeps over every run: chunks marked as held are the committed
 ones, records name only chunks that survive a crash, and success means the committed file.
 */
module ReceiverSafety {
  import opened Octets
  import opened Merkle
  import opened Geometry
  import opened Chunks
  import opened Storage
  import opened Receiver
  import Sender

  /** The object a destination is used for: geometry, identifiers and root. */
  datatype Target = Target(ctx: ObjectContext, root: Hash) {
    function Identity(): ObjectIdentity {
      ObjectIdentity(ctx.transferId, ctx.objectId, [], root, ctx.chunkCount, ctx.ChunkCiphertextSize(), ctx.size)
    }
  }

  // --- Chunks that stand in a file, and bytes that are certain to ---

  ghost predicate Stands(file: Bytes, t: Target, i: nat)
    requires t.ctx.Admitted() && i < t.ctx.chunkCount
  {
    var start, end := t.ctx.Start(i), t.ctx.Start(i) + t.ctx.Len(i);
    end <= |file| && Committed(t.root, t.ctx.chunkCount, i, file[start..end])
  }

  ghost predicate Certain(disk: Disk, t: Target, i: nat)
    requires t.ctx.Admitted() && i < t.ctx.chunkCount
  {
    forall o: nat :: t.ctx.Start(i) <= o < t.ctx.Start(i) + t.ctx.Len(i) && o < |disk.file| ==>
      o in disk.survives && disk.survives[o] == {disk.file[o]}
  }

  /** A record for this object names only committed chunks whose bytes survive any crash. */
  ghost predicate Truthful(disk: Disk, t: Target, stored: Option<ResumeRecord>)
    requires t.ctx.Admitted() && (stored.Some? ==> stored.value.WellFormed())
  {
    stored.Some? && stored.value.identity.Matches(t.Identity()) ==>
      forall i: nat :: i < t.ctx.chunkCount && stored.value.durable[i] ==>
          Stands(disk.file, t, i) && Certain(disk, t, i)
  }

  /** The record names no chunk of this object. */
  ghost predicate ClaimsNothing(stored: Option<ResumeRecord>, t: Target)
    requires stored.Some? ==> stored.value.WellFormed()
  {
    stored.Some? && stored.value.identity.Matches(t.Identity()) ==>
      forall i: nat :: i < t.ctx.chunkCount ==> !stored.value.durable[i]
  }

  /** No record a crash may leave names a chunk of this object. */
  ghost predicate NothingClaimed(disk: Disk, t: Target)
    requires disk.Valid()
  {
    forall c :: c in disk.candidates ==> ClaimsNothing(c, t)
  }

  /** A session for this object holds only chunks that stand in the file, until it has removed the file. */
  ghost predicate HeldStand(w: World, t: Target)
    requires Sane(w) && t.ctx.Admitted()
  {
    w.session.Some? ==>
      var s := w.session.value;
      && s.job.ctx == t.ctx && s.job.root == t.root
      && (s.phase != Discarded ==> forall i: nat :: i < t.ctx.chunkCount && s.have[i] ==> Stands(w.disk.file, t, i))
  }

  /** Everything the receiver holds, it holds rightly. */
  ghost predicate Truth(w: World, t: Target) {
    && Sane(w) && t.ctx.Admitted() && HeldStand(w, t)
    && (forall c :: c in w.disk.candidates ==> Truthful(w.disk, t, c))
  }

  /** Every attempt at this destination is for this object. */
  predicate ForTarget(e: Event, t: Target) {
    e.Begin? ==> e.job.ctx == t.ctx && e.job.root == t.root
  }

  /** The file is discarded only where no record claims a chunk of it. */
  ghost predicate Allowed(w: World, e: Event, t: Target)
    requires Sane(w)
  {
    ForTarget(e, t) && (e.DiscardFile? ==> NothingClaimed(w.disk, t))
  }

  // --- Writing ---

  /** Writing any part of a committed chunk, from its start, disturbs no committed chunk. */
  lemma WriteKeeps(disk: Disk, t: Target, index: nat, plaintext: Bytes, n: nat, j: nat)
    requires t.ctx.Admitted() && disk.Valid() && |disk.file| == t.ctx.size
    requires index < t.ctx.chunkCount && j < t.ctx.chunkCount && |plaintext| == t.ctx.Len(index) && n <= |plaintext|
    requires t.ctx.Start(index) + n <= t.ctx.size
    requires Committed(t.root, t.ctx.chunkCount, index, plaintext) && Stands(disk.file, t, j)
    ensures var after := disk.Write(t.ctx.Start(index), plaintext[..n]);
            Stands(after.file, t, j) && (Certain(disk, t, j) ==> Certain(after, t, j))
  {
    hide AllowedChunkSize, Committed;
    var after := disk.Write(t.ctx.Start(index), plaintext[..n]);
    var start, end := t.ctx.Start(j), t.ctx.Start(j) + t.ctx.Len(j);
    SliceInside(t.ctx, index);
    if j < index {
      ChunksDisjoint(t.ctx, j, index);
    } else if index < j {
      ChunksDisjoint(t.ctx, index, j);
    } else {
      CommittedOnce(t.root, t.ctx.chunkCount, index, disk.file[start..end], plaintext);
    }
    SameBytes(disk, t.ctx.Start(index), plaintext[..n], start, end);
    assert after.file[start..end] == disk.file[start..end];
  }

  /** A write that is outside a stretch, or repeats what is there, leaves the stretch and its certainty. */
  lemma SameBytes(disk: Disk, offset: nat, data: Bytes, start: nat, end: nat)
    requires offset + |data| <= |disk.file| && start <= end <= |disk.file|
    requires forall o :: start <= o < end && offset <= o < offset + |data| ==> data[o - offset] == disk.file[o]
    ensures var after := disk.Write(offset, data);
            && (forall o :: start <= o < end ==> after.file[o] == disk.file[o])
            && (forall o: nat :: start <= o < end && o in disk.survives && disk.survives[o] == {disk.file[o]} ==>
                  o in after.survives && after.survives[o] == {after.file[o]})
  {
  }

  // --- Each event ---

  lemma TruthBegin(w: World, e: Event, t: Target)
    requires Truth(w, t) && Enabled(w, e) && ForTarget(e, t) && e.Begin?
    ensures Truth(Step(w, e), t)
  {
    StepIsSane(w, e);
    hide ChunkStep, TornStep, AllowedChunkSize, Committed, HeldBytes, Sane;
    var w' := Step(w, e);
    forall i: nat | i < t.ctx.chunkCount
      ensures Stands(w.disk.file, t, i) ==> Stands(w'.disk.file, t, i)
      ensures Stands(w.disk.file, t, i) && Certain(w.disk, t, i) ==> Certain(w'.disk, t, i)
    {
      if Stands(w.disk.file, t, i) {
        ResizeKeeps(w.disk, t, i);
      }
    }
    forall c | c in w'.disk.candidates ensures Truthful(w'.disk, t, c) {
      assert Truthful(w.disk, t, c);
    }
    BeginStands(w, e, t);
  }

  lemma ResizeKeeps(disk: Disk, t: Target, i: nat)
    requires t.ctx.Admitted() && i < t.ctx.chunkCount && Stands(disk.file, t, i)
    ensures Stands(disk.Resize(t.ctx.size).file, t, i)
    ensures Certain(disk, t, i) ==> Certain(disk.Resize(t.ctx.size), t, i)
  {
    hide AllowedChunkSize, Committed;
    SliceInside(t.ctx, i);
    var start, end := t.ctx.Start(i), t.ctx.Start(i) + t.ctx.Len(i);
    assert disk.Resize(t.ctx.size).file[start..end] == disk.file[start..end];
  }

  lemma BeginStands(w: World, e: Event, t: Target)
    requires Truth(w, t) && Enabled(w, e) && ForTarget(e, t) && e.Begin?
    ensures var s := Step(w, e).session.value;
            forall i: nat :: i < t.ctx.chunkCount && s.have[i] ==> Stands(Step(w, e).disk.file, t, i)
  {
    hide ChunkStep, TornStep, AllowedChunkSize, Committed, HeldBytes;
    var s := Step(w, e).session.value;
    var stored := if e.readable then w.disk.record else None;
    forall i: nat | i < t.ctx.chunkCount && s.have[i] ensures Stands(Step(w, e).disk.file, t, i) {
      assert stored.Some? && stored.value.identity.Matches(t.Identity());
      assert Truthful(w.disk, t, stored);
      ResizeKeeps(w.disk, t, i);
    }
  }

  lemma TruthChunk(w: World, e: Event, t: Target)
    requires Truth(w, t) && Enabled(w, e) && e.Chunk?
    ensures Truth(Step(w, e), t)
  {
    StepIsSane(w, e);
    hide AllowedChunkSize, Committed, HeldBytes, SaneSession, Check, Stands, Truthful, Directions, Disk.Write;
    var s := w.session.value;
    var r := Check(s.job, s.have, e.payload).value;
    if r.Some? {
      var (index, plaintext) := r.value;
      AcceptedIsCommitted(s.job, s.have, e.payload);
      TargetSize(w, t);
      SliceInside(t.ctx, index);
      WriteTruth(w.disk, t, s.have, index, plaintext);
      WriteSame(w.disk, t.ctx.Start(index), plaintext);
    }
  }

  lemma WriteSame(disk: Disk, offset: nat, data: Bytes)
    requires offset + |data| <= |disk.file|
    ensures disk.Write(offset, data).candidates == disk.candidates
  {
  }

  /** Writing a committed chunk keeps every record truthful and every held chunk standing, the new one too. */
  lemma WriteTruth(disk: Disk, t: Target, have: seq<bool>, index: nat, plaintext: Bytes)
    requires t.ctx.Admitted() && disk.Valid() && |disk.file| == t.ctx.size && |have| == t.ctx.chunkCount
    requires index < t.ctx.chunkCount && |plaintext| == t.ctx.Len(index)
    requires t.ctx.Start(index) + |plaintext| <= t.ctx.size
    requires Committed(t.root, t.ctx.chunkCount, index, plaintext)
    requires forall c :: c in disk.candidates ==> Truthful(disk, t, c)
    requires forall i: nat :: i < t.ctx.chunkCount && have[i] ==> Stands(disk.file, t, i)
    ensures var after := disk.Write(t.ctx.Start(index), plaintext);
            && (forall c :: c in disk.candidates ==> Truthful(after, t, c))
            && (forall i: nat :: i < t.ctx.chunkCount && have[index := true][i] ==> Stands(after.file, t, i))
  {
    hide AllowedChunkSize, Committed, Stands, Truthful, Disk.Write;
    assert plaintext[..|plaintext|] == plaintext;
    forall c | c in disk.candidates ensures Truthful(disk.Write(t.ctx.Start(index), plaintext), t, c) {
      WriteTruthful(disk, t, index, plaintext, |plaintext|, c);
    }
    forall j: nat | j < t.ctx.chunkCount && have[index := true][j]
      ensures Stands(disk.Write(t.ctx.Start(index), plaintext).file, t, j)
    {
      if j == index {
        WrittenStands(disk, t, index, plaintext);
      } else {
        WriteKeeps(disk, t, index, plaintext, |plaintext|, j);
      }
    }
  }

  lemma TargetSize(w: World, t: Target)
    requires Truth(w, t) && w.session.Some? && w.session.value.phase != Discarded
    ensures |w.disk.file| == t.ctx.size && |w.session.value.have| == t.ctx.chunkCount
  {
    hide AllowedChunkSize, HeldBytes, Stands, Truthful;
  }

  lemma WriteTruthful(disk: Disk, t: Target, index: nat, plaintext: Bytes, n: nat, stored: Option<ResumeRecord>)
    requires t.ctx.Admitted() && disk.Valid() && |disk.file| == t.ctx.size &&
             (stored.Some? ==> stored.value.WellFormed())
    requires index < t.ctx.chunkCount && |plaintext| == t.ctx.Len(index) && n <= |plaintext|
    requires t.ctx.Start(index) + n <= t.ctx.size
    requires Committed(t.root, t.ctx.chunkCount, index, plaintext) && Truthful(disk, t, stored)
    ensures Truthful(disk.Write(t.ctx.Start(index), plaintext[..n]), t, stored)
  {
    hide AllowedChunkSize, Committed, Stands, Certain;
    forall j: nat | j < t.ctx.chunkCount && Stands(disk.file, t, j) && Certain(disk, t, j)
      ensures Stands(disk.Write(t.ctx.Start(index), plaintext[..n]).file, t, j)
      ensures Certain(disk.Write(t.ctx.Start(index), plaintext[..n]), t, j)
    {
      WriteKeeps(disk, t, index, plaintext, n, j);
    }
  }

  lemma WrittenStands(disk: Disk, t: Target, index: nat, plaintext: Bytes)
    requires t.ctx.Admitted() && |disk.file| == t.ctx.size && index < t.ctx.chunkCount &&
             |plaintext| == t.ctx.Len(index)
    requires t.ctx.Start(index) + |plaintext| <= t.ctx.size
    requires Committed(t.root, t.ctx.chunkCount, index, plaintext)
    ensures Stands(disk.Write(t.ctx.Start(index), plaintext).file, t, index)
  {
    hide AllowedChunkSize, Committed;
    var start := t.ctx.Start(index);
    assert disk.Write(start, plaintext).file[start..start + |plaintext|] == plaintext;
  }

  lemma TruthTorn(w: World, e: Event, t: Target)
    requires Truth(w, t) && Enabled(w, e) && e.TornChunk?
    ensures Truth(Step(w, e), t)
  {
    StepIsSane(w, e);
    hide AllowedChunkSize, Committed, HeldBytes, SaneSession, Check, Stands, Truthful, Directions;
    var s := w.session.value;
    var (index, plaintext) := Check(s.job, s.have, e.payload).value.value;
    AcceptedIsCommitted(s.job, s.have, e.payload);
    TargetSize(w, t);
    SliceInside(t.ctx, index);
    forall c | c in w.disk.candidates ensures Truthful(Step(w, e).disk, t, c) {
      WriteTruthful(w.disk, t, index, plaintext, e.written, c);
    }
  }

  lemma SyncTruthful(disk: Disk, t: Target, stored: Option<ResumeRecord>)
    requires t.ctx.Admitted() && (stored.Some? ==> stored.value.WellFormed()) && Truthful(disk, t, stored)
    ensures Truthful(disk.Sync(), t, stored) && disk.Sync().file == disk.file
  {
    hide AllowedChunkSize, Stands;
  }

  lemma TruthSync(w: World, e: Event, t: Target)
    requires Truth(w, t) && Enabled(w, e) && e.SyncFile?
    ensures Truth(Step(w, e), t)
  {
    StepIsSane(w, e);
    hide ChunkStep, TornStep, AllowedChunkSize, HeldBytes, SaneSession, Stands, Truthful, Disk.Valid;
    var w' := Step(w, e);
    forall c | c in w'.disk.candidates ensures Truthful(w'.disk, t, c) {
      SyncTruthful(w.disk, t, c);
    }
  }

  lemma TruthCommit(w: World, e: Event, t: Target)
    requires Truth(w, t) && Enabled(w, e) && e.CommitRecord?
    ensures Truth(Step(w, e), t)
  {
    StepIsSane(w, e);
    hide ChunkStep, TornStep, AllowedChunkSize, Committed, HeldBytes, Stands;
    var s, w' := w.session.value, Step(w, e);
    forall c | c in w'.disk.candidates ensures Truthful(w'.disk, t, c) {
      if c != Some(s.db.value.record) {
        assert Truthful(w.disk, t, c);
      }
    }
  }

  lemma TruthCrash(w: World, e: Event, t: Target)
    requires Truth(w, t) && Enabled(w, e) && e.Crash?
    ensures Truth(Step(w, e), t)
  {
    StepIsSane(w, e);
    hide ChunkStep, TornStep, AllowedChunkSize, Committed, HeldBytes, Sane;
    var w' := Step(w, e);
    assert Truthful(w.disk, t, e.stored);
    forall i: nat | i < t.ctx.chunkCount && Stands(w.disk.file, t, i) && Certain(w.disk, t, i)
      ensures Stands(w'.disk.file, t, i) && Certain(w'.disk, t, i)
    {
      CrashKeeps(w.disk, e.left, e.stored, t, i);
    }
  }

  lemma CrashKeeps(disk: Disk, left: Bytes, stored: Option<ResumeRecord>, t: Target, i: nat)
    requires disk.MayCrashTo(left, stored) && t.ctx.Admitted() && i < t.ctx.chunkCount
    requires Stands(disk.file, t, i) && Certain(disk, t, i)
    ensures var after := disk.AfterCrash(left, stored); Stands(after.file, t, i) && Certain(after, t, i)
  {
    hide AllowedChunkSize, Committed;
    var start, end := t.ctx.Start(i), t.ctx.Start(i) + t.ctx.Len(i);
    ChunksMeet(t.ctx, i);
    assert end - 1 in disk.survives;
    assert left[start..end] == disk.file[start..end];
  }

  /** What the truth depends on: the disk, apart from forgetting the record, and the chunks held. */
  lemma TruthCarries(w: World, w': World, t: Target)
    requires Truth(w, t) && Sane(w')
    requires w'.disk == w.disk || w'.disk == w.disk.RemoveRecord()
    requires w'.session.Some? ==>
               && w.session.Some? && w.session.value.phase != Discarded && w'.session.value.phase != Discarded
               && w'.session.value.job == w.session.value.job && w'.session.value.have == w.session.value.have
    ensures Truth(w', t)
  {
    hide AllowedChunkSize, Stands, SaneSession;
    forall c | c in w'.disk.candidates ensures Truthful(w'.disk, t, c) {
      if c in w.disk.candidates {
        assert Truthful(w.disk, t, c);
      }
    }
  }

  lemma TruthOther(w: World, e: Event, t: Target)
    requires Truth(w, t) && Enabled(w, e) && (e.StreamEnd? || e.Decide? || e.ForgetRecord? || e.Interrupt?)
    ensures Truth(Step(w, e), t)
  {
    StepIsSane(w, e);
    hide ChunkStep, TornStep, AllowedChunkSize, Truthful, Stands, FinalDigest, SaneSession, Complete, Disk.Valid,
         Disk.RemoveRecord;
    TruthCarries(w, Step(w, e), t);
  }

  /** Discarding a file that no record claims loses nothing. */
  lemma TruthDiscard(w: World, e: Event, t: Target)
    requires Truth(w, t) && Enabled(w, e) && Allowed(w, e, t) && e.DiscardFile?
    ensures Truth(Step(w, e), t)
  {
    StepIsSane(w, e);
    hide ChunkStep, TornStep, AllowedChunkSize, Stands, Certain, SaneStream, HeldBytes, Complete;
  }

  lemma StepKeepsTruth(w: World, e: Event, t: Target)
    requires Truth(w, t) && Enabled(w, e) && Allowed(w, e, t)
    ensures Truth(Step(w, e), t)
  {
    hide HeldStand, Truthful, Step;
    match e {
      case Begin(_, _, _) => TruthBegin(w, e, t);
      case Chunk(_) => TruthChunk(w, e, t);
      case TornChunk(_, _) => TruthTorn(w, e, t);
      case SyncFile => TruthSync(w, e, t);
      case CommitRecord(_) => TruthCommit(w, e, t);
      case DiscardFile => TruthDiscard(w, e, t);
      case Crash(_, _) => TruthCrash(w, e, t);
      case _ => TruthOther(w, e, t);
    }
  }
}
