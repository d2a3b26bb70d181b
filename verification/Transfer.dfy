/**
 One attempt from end to end (`transfer.rs`): the receiver asks for what it lacks, the sender
 ships it, and the receive loop ends as it should.
 */
module Transfer {
  import opened Octets
  import opened Merkle
  import opened Geometry
  import opened Chunks
  import opened ChunkRecord
  import opened Storage
  import opened Receiver
  import opened ReceiverSafety
  import opened ReceiverRuns
  import opened Outcomes
  import R = Rle
  import S = Scheduler
  import RC = RangeCodec
  import Sender

  /** What a sender puts on the wire for a request: the records of the ranges, then the end. */
  ghost function Sent(job: Job, file: Bytes, ranges: seq<S.Range>): (frames: seq<Frame>)
    requires job.ctx.Admitted() && |file| == job.ctx.size && S.ValidRanges(ranges, job.ctx.chunkCount)
    ensures |frames| == |Sender.Indices(ranges)| + 1
  {
    Sender.IndicesInside(ranges, job.ctx.chunkCount);
    Stream(Sender.PlainFrames(job.schedule, job.ctx, file, Sender.Indices(ranges)))
  }

  function Stream(records: seq<Bytes>): (frames: seq<Frame>)
    ensures |frames| == |records| + 1 && frames[|records|] == EndFrame
    ensures forall k :: 0 <= k < |records| ==> frames[k] == ChunkFrame(records[k])
  {
    seq(|records|, k requires 0 <= k < |records| => ChunkFrame(records[k])) + [EndFrame]
  }

  /** Every system call goes well. */
  ghost predicate AllWell(luck: seq<Luck>, removals: Removals) {
    && removals.record
    && forall k :: 0 <= k < |luck| ==>
         luck[k].tearsAt.None? && !luck[k].routeRefused && luck[k].sync && luck[k].checkpoint.Succeeds?
  }

  lemma {:induction false} PlainFrameAt(s: Schedule, ctx: ObjectContext, file: Bytes, indices: seq<nat>, k: nat)
    requires ctx.Admitted() && |file| == ctx.size && k < |indices|
    requires forall j :: 0 <= j < |indices| ==> indices[j] < ctx.chunkCount
    ensures Encodable(Sender.RecordFor(s, ctx, file, indices[k]))
    ensures Sender.PlainFrames(s, ctx, file, indices)[k] == Encode(Sender.RecordFor(s, ctx, file, indices[k]))
    decreases |indices|
  {
    hide AllowedChunkSize, Encode, Sender.RecordFor;
    Sender.RecordEncodes(s, ctx, file, indices[k]);
    if k < |indices| - 1 {
      PlainFrameAt(s, ctx, file, indices[..|indices| - 1], k);
    }
  }

  /** An honest record's frame names its chunk and brings its bytes. */
  lemma SentFrame(job: Job, file: Bytes, ranges: seq<S.Range>, k: nat)
    requires Honest(Target(job.ctx, job.root), job.schedule, file) && job.ctx.chunkCount <= DECODABLE_LEAVES
    requires S.ValidRanges(ranges, job.ctx.chunkCount) && k < |Sender.Indices(ranges)|
    ensures var f, i := Sent(job, file, ranges)[k], Sender.Indices(ranges)[k];
            && f.ChunkFrame? && i < job.ctx.chunkCount && IndexOf(f) == Some(i)
            && Brought(job, f) == Ok(Some((i, Slice(job.ctx, file, i))))
  {
    hide AllowedChunkSize, Encode, Decode, Check, Slice, Directions, Root, Leaves, Sender.RecordFor, Sender.PlainFrames,
         Sender.Indices;
    Sender.IndicesInside(ranges, job.ctx.chunkCount);
    var i := Sender.Indices(ranges)[k];
    var none := Nothing(job.ctx.chunkCount);
    PlainFrameAt(job.schedule, job.ctx, file, Sender.Indices(ranges), k);
    HonestRecordAccepted(job, file, none, i);
    ShortPaths(job.ctx.chunkCount, i);
    CheckSplits(job, none, Sent(job, file, ranges)[k]);
  }

  lemma ShortPaths(count: nat, i: nat)
    requires i < count <= DECODABLE_LEAVES
    ensures |Directions(count, i)| <= DECODABLE_STEPS
  {
    hide Directions;
    TreeDecodes(count);
  }

  /** What the sender ships lands, and afterwards exactly what was held or asked for is held. */
  lemma SentLands(job: Job, file: Bytes, c: Course, ranges: seq<S.Range>, luck: seq<Luck>, removals: Removals)
    requires Honest(Target(job.ctx, job.root), job.schedule, file) && job.ctx.chunkCount <= DECODABLE_LEAVES
    requires c.Valid(job) && S.ValidRanges(ranges, job.ctx.chunkCount)
    requires |luck| == |Sent(job, file, ranges)| && AllWell(luck, removals)
    ensures var frames, n := Sent(job, file, ranges), |Sender.Indices(ranges)|;
            && Walk(job, c, frames, luck, n).Some?
            && Walk(job, c, frames, luck, n).value.have == S.Deliver(c.have, ranges)
            && Walk(job, c, frames, luck, n).value.pending.Some? == c.pending.Some?
  {
    hide AllowedChunkSize, Root, Leaves, Slice, Sent, Brought, IndexOf, New, NewCount, AfterChunk, Sender.Indices,
         S.ValidRanges;
    var frames, n := Sent(job, file, ranges), |Sender.Indices(ranges)|;
    forall k | 0 <= k < n
      ensures frames[k].ChunkFrame? && IndexOf(frames[k]) == Some(Sender.Indices(ranges)[k])
      ensures Lands(job, c, frames, luck, k)
    {
      SentFrame(job, file, ranges, k);
    }
    WalkIff(job, c, frames, luck, n);
    var have := Walk(job, c, frames, luck, n).value.have;
    forall i | 0 <= i < |have| ensures have[i] == S.Deliver(c.have, ranges)[i] {
      NamedIsCovered(job, frames, ranges, n, i);
    }
  }

  lemma NamedIsCovered(job: Job, frames: seq<Frame>, ranges: seq<S.Range>, n: nat, i: nat)
    requires S.ValidRanges(ranges, job.ctx.chunkCount) && n == |Sender.Indices(ranges)| <= |frames|
    requires forall k :: 0 <= k < n ==> IndexOf(frames[k]) == Some(Sender.Indices(ranges)[k])
    ensures Named(frames, n, i) <==> R.Covered(ranges, i)
  {
    hide IndexOf, R.Covered, Sender.Indices, R.Apart;
    Sender.IndicesAre(ranges, job.ctx.chunkCount);
    var indices := Sender.Indices(ranges);
    if i in indices {
      var k :| 0 <= k < n && indices[k] == i;
      assert IndexOf(frames[k]) == Some(i);
    }
    if Named(frames, n, i) {
      var k :| 0 <= k < n && IndexOf(frames[k]) == Some(i);
      assert indices[k] == i;
    }
  }

  /** What is held at the start is the sender's. */
  ghost predicate StartsRight(job: Job, file: Bytes, c: Course)
    requires c.Valid(job) && |file| == job.ctx.size
  {
    forall i: nat :: i < job.ctx.chunkCount && c.have[i] ==> Slice(job.ctx, c.file, i) == Slice(job.ctx, file, i)
  }

  /** With everything held, what was assembled is the sender's file. */
  lemma SentIsTheFile(job: Job, file: Bytes, c: Course, ranges: seq<S.Range>, luck: seq<Luck>, removals: Removals)
    requires Honest(Target(job.ctx, job.root), job.schedule, file) && job.ctx.chunkCount <= DECODABLE_LEAVES
    requires c.Valid(job) && StartsRight(job, file, c) && S.ValidRanges(ranges, job.ctx.chunkCount)
    requires |luck| == |Sent(job, file, ranges)| && AllWell(luck, removals) && Complete(S.Deliver(c.have, ranges))
    ensures var frames, n := Sent(job, file, ranges), |Sender.Indices(ranges)|;
            Walk(job, c, frames, luck, n).Some? && Walk(job, c, frames, luck, n).value.file == file
  {
    hide AllowedChunkSize, Root, Leaves, Slice, Sent, Brought, IndexOf, AfterChunk, Sender.Indices, S.ValidRanges,
         Lands, NewCount, R.Covered;
    var frames, n := Sent(job, file, ranges), |Sender.Indices(ranges)|;
    SentLands(job, file, c, ranges, luck, removals);
    forall k | 0 <= k < n
      ensures frames[k].ChunkFrame? && IndexOf(frames[k]) == Some(Sender.Indices(ranges)[k])
      ensures Sender.Indices(ranges)[k] < job.ctx.chunkCount
      ensures Brought(job, frames[k]) ==
              Ok(Some((Sender.Indices(ranges)[k], Slice(job.ctx, file, Sender.Indices(ranges)[k]))))
    {
      SentFrame(job, file, ranges, k);
    }
    assert Assembles(job, c, frames, n, file);
    WalkAssembles(job, c, frames, luck, n);
    forall i: nat | i < job.ctx.chunkCount ensures c.have[i] || Named(frames, n, i) {
      NamedIsCovered(job, frames, ranges, n, i);
      assert S.Deliver(c.have, ranges)[i];
    }
    OneContent(job, c, frames, n, file, Walk(job, c, frames, luck, n).value.file);
  }

  lemma {:induction false} WalkedVerdict(job: Job, c: Course, frames: seq<Frame>, luck: seq<Luck>, removals: Removals,
                                         n: nat)
    requires c.Valid(job) && |luck| == |frames| && n <= |frames| && Walk(job, c, frames, luck, n).Some?
    ensures Verdict(job, c, frames, luck, removals, 0) ==
            Verdict(job, Walk(job, c, frames, luck, n).value, frames, luck, removals, n)
  {
    hide AfterChunk, Course.Valid, AtEnd;
    if n > 0 {
      WalkedVerdict(job, c, frames, luck, removals, n - 1);
    }
  }

  /**
   An honest object whose ranges are shipped to a receiver that asked for them: the attempt ends
   with the claimed digest exactly when the ranges cover all that was missing, and is cut short
   as incomplete otherwise.
   */
  lemma ShippedEnds(job: Job, file: Bytes, c: Course, ranges: seq<S.Range>, luck: seq<Luck>, removals: Removals)
    requires Honest(Target(job.ctx, job.root), job.schedule, file) && job.ctx.chunkCount <= DECODABLE_LEAVES
    requires job.digest == Sender.Digest(file)
    requires c.Valid(job) && StartsRight(job, file, c) && S.ValidRanges(ranges, job.ctx.chunkCount)
    requires |luck| == |Sent(job, file, ranges)| && AllWell(luck, removals)
    ensures Verdict(job, c, Sent(job, file, ranges), luck, removals, 0) ==
            if Complete(S.Deliver(c.have, ranges)) then Ok(job.digest) else Err(Incomplete)
  {
    hide ObjectContext.Admitted, Walk, Verdict, Sent, Sender.Indices, S.ValidRanges, Course.Valid, Sender.Digest,
         StartsRight, S.Deliver, Honest;
    HonestSize(Target(job.ctx, job.root), job.schedule, file);
    var frames, n := Sent(job, file, ranges), |Sender.Indices(ranges)|;
    SentLands(job, file, c, ranges, luck, removals);
    WalkedVerdict(job, c, frames, luck, removals, n);
    var d := Walk(job, c, frames, luck, n).value;
    SentEnds(job, file, ranges);
    EndDecides(job, d, frames, luck, removals, n);
    if Complete(S.Deliver(c.have, ranges)) {
      SentIsTheFile(job, file, c, ranges, luck, removals);
    }
  }

  lemma SentEnds(job: Job, file: Bytes, ranges: seq<S.Range>)
    requires job.ctx.Admitted() && |file| == job.ctx.size && S.ValidRanges(ranges, job.ctx.chunkCount)
    ensures Sent(job, file, ranges)[|Sender.Indices(ranges)|] == EndFrame
  {
    hide ObjectContext.Admitted, Sender.Indices, S.ValidRanges, Sender.PlainFrames;
  }

  lemma EndDecides(job: Job, d: Course, frames: seq<Frame>, luck: seq<Luck>, removals: Removals, n: nat)
    requires d.Valid(job) && |luck| == |frames| && n < |frames| && frames[n] == EndFrame
    ensures Verdict(job, d, frames, luck, removals, n) == AtEnd(job, d, luck[n], removals)
  {
    hide Course.Valid, AtEnd, AfterChunk;
  }

  /** A destination whose records are true gives an attempt that starts right. */
  lemma TruthStartsRight(disk: Disk, job: Job, useDb: bool, readable: bool, file: Bytes)
    requires var t := Target(job.ctx, job.root); Truth(World(disk, None), t) && Honest(t, job.schedule, file)
    ensures disk.Valid() && job.ctx.Admitted() && |file| == job.ctx.size
    ensures StartsRight(job, file, Opening(disk, job, useDb, readable))
  {
    var t, w, e := Target(job.ctx, job.root), World(disk, None), Begin(job, useDb, readable);
    TruthBegin(w, e, t);
    var v := Step(w, e);
    hide AllowedChunkSize, Root, Leaves, Stands, Truthful, Slice, HeldBytes, Disk.Valid, SaneSession;
    forall i: nat | i < job.ctx.chunkCount && v.session.value.have[i]
      ensures Slice(job.ctx, v.disk.file, i) == Slice(job.ctx, file, i)
    {
      StandsIsSlice(t, job.schedule, file, v.disk.file, i);
    }
  }

  /** What an attempt with no failures gives, for what the receiver asks of the sender at its start. */
  ghost function AttemptResult(job: Job, file: Bytes, c: Course, ranges: seq<S.Range>, luck: seq<Luck>,
                               removals: Removals): Result<Bytes, ReceiveError>
    requires c.Valid(job) && |file| == job.ctx.size && S.ValidRanges(ranges, job.ctx.chunkCount)
    requires |luck| == |Sent(job, file, ranges)|
  {
    Verdict(job, c, Sent(job, file, ranges), luck, removals, 0)
  }

  /**
   From request to result. On a destination used for this object alone, if nothing fails,
   shipping what the receiver's full request names completes the file exactly when at most 1024
   gaps were left; otherwise the attempt ends as incomplete.
   */
  lemma OneAttempt(disk: Disk, job: Job, useDb: bool, readable: bool, file: Bytes, p: S.Plan, luck: seq<Luck>,
                   removals: Removals)
    requires disk.Valid() && job.ctx.Admitted() && |file| == job.ctx.size
    requires Truth(World(disk, None), Target(job.ctx, job.root))
    requires Honest(Target(job.ctx, job.root), job.schedule, file) && job.digest == Sender.Digest(file)
    requires job.ctx.chunkCount <= DECODABLE_LEAVES
    ensures var c := Opening(disk, job, useDb, readable);
            var ranges := S.FullRequest(p, c.have).ranges;
            && S.ValidRanges(ranges, job.ctx.chunkCount)
            && (|luck| == |Sent(job, file, ranges)| && AllWell(luck, removals) ==>
                  AttemptResult(job, file, c, ranges, luck, removals) ==
                  if |R.Gaps(c.have, 0)| <= 1024 then Ok(job.digest) else Err(Incomplete))
  {
    hide ObjectContext.Admitted, Truth, Honest, StartsRight, Verdict, R.Gaps, S.Deliver, Sender.Digest, Sent, Opening,
         S.ValidRanges, Course.Valid;
    TruthStartsRight(disk, job, useDb, readable, file);
    var c := Opening(disk, job, useDb, readable);
    var ranges := S.FullRequest(p, c.have).ranges;
    AsksRightly(job, c, p);
    if |luck| == |Sent(job, file, ranges)| && AllWell(luck, removals) {
      ShippedEnds(job, file, c, ranges, luck, removals);
    }
  }

  lemma AsksRightly(job: Job, c: Course, p: S.Plan)
    requires c.Valid(job)
    ensures S.ValidRanges(S.FullRequest(p, c.have).ranges, job.ctx.chunkCount)
    ensures Complete(S.Deliver(c.have, S.FullRequest(p, c.have).ranges)) <==> |R.Gaps(c.have, 0)| <= 1024
  {
    hide AllowedChunkSize, R.Gaps, S.Deliver, S.ValidRanges;
    S.FullRequestIsSound(p, c.have);
  }

  /** The request itself reaches the sender as it was made. */
  lemma RequestArrives(p: S.Plan, have: seq<bool>)
    requires |p.transferId| == ID_LEN && |p.objectId| == ID_LEN && |have| < U64_LIMIT
    ensures var r := S.FullRequest(p, have);
            RC.Encodable(r) && RC.Decode(RC.Encode(r), |have|) == Ok(r)
  {
    hide RC.Encode, RC.Decode, S.Judged, R.Gaps, S.Deliver;
    S.FullRequestIsSound(p, have);
    RC.RequestReads(S.FullRequest(p, have), |have|);
  }
}
