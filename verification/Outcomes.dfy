/**
 How one attempt to receive a file ends (`receive_file`), as a function of the frames that
 arrive and of how the system calls go, and exactly when it succeeds.
 */
module Outcomes {
  import opened Octets
  import opened Merkle
  import opened Geometry
  import opened Chunks
  import opened ChunkRecord
  import opened Storage
  import opened Receiver
  import Sender

  datatype Frame = ChunkFrame(payload: Bytes) | EndFrame | UnexpectedFrame

  datatype ReceiveError =
    | Refused(cause: TransferError) | IoFailed | BadFrameType | ConnectionLost | Incomplete | DigestMismatch
    | RouteRefused

  /**
   What is outside the loop's control for one frame: where a failing write stops, whether the
   route is found refused after the write, and how the sync and the checkpoint go.
   */
  datatype Luck = Luck(tearsAt: Option<nat>, routeRefused: bool, sync: bool, checkpoint: Outcome)

  /** Which of the closing removals succeed. */
  datatype Removals = Removals(file: bool, record: bool)

  /** What decides how an attempt goes on; `pending` counts chunks since the last checkpoint, if there is a record. */
  datatype Course = Course(have: seq<bool>, file: Bytes, pending: Option<nat>) {
    ghost predicate Valid(job: Job) {
      && job.ctx.Admitted() && |have| == job.ctx.chunkCount && |file| == job.ctx.size
      && (pending.Some? ==> pending.value < CHECKPOINT_INTERVAL)
    }
  }

  // --- Step by step ---

  /** A chunk at its place in the file. */
  function Placed(ctx: ObjectContext, file: Bytes, index: nat, plaintext: Bytes): (f: Bytes)
    requires ctx.Start(index) + |plaintext| <= |file|
    ensures |f| == |file|
  {
    file[..ctx.Start(index)] + plaintext + file[ctx.Start(index) + |plaintext|..]
  }

  /** After a chunk that passed the checks is written: a checkpoint may be due, and must then succeed. */
  ghost function Accepted(job: Job, c: Course, index: nat, plaintext: Bytes, luck: Luck): Result<Course, ReceiveError>
    requires c.Valid(job) && index < |c.have| && job.ctx.Start(index) + |plaintext| <= job.ctx.size
  {
    if luck.tearsAt.Some? then Err(IoFailed)
    else if luck.routeRefused then Err(RouteRefused)
    else
      var due := c.pending.Some? && c.pending.value + 1 >= CHECKPOINT_INTERVAL;
      if due && (!luck.sync || luck.checkpoint.Fails?) then Err(IoFailed)
      else Ok(Course(c.have[index := true], Placed(job.ctx, c.file, index, plaintext),
                     if c.pending.None? then None else if due then Some(0) else Some(c.pending.value + 1)))
  }

  ghost function AfterChunk(job: Job, c: Course, payload: Bytes, luck: Luck): (r: Result<Course, ReceiveError>)
    requires c.Valid(job)
    ensures r.Ok? ==> r.value.Valid(job)
    ensures r.Err? ==> r.error != DigestMismatch && r.error != Incomplete
  {
    var checked := Check(job, c.have, payload);
    if checked.Err? then Err(Refused(checked.error))
    else if checked.value.None? then Ok(c)
    else
      AcceptedFits(job, c.have, payload);
      Accepted(job, c, checked.value.value.0, checked.value.value.1, luck)
  }

  /** The end of the stream. */
  ghost function AtEnd(job: Job, c: Course, luck: Luck, removals: Removals): (r: Result<Bytes, ReceiveError>)
    ensures r.Ok? ==> Complete(c.have) && r.value == job.digest
  {
    if !Complete(c.have) then
      if c.pending.Some? && (!luck.sync || luck.checkpoint.Fails?) then Err(IoFailed) else Err(Incomplete)
    else if !luck.sync then Err(IoFailed)
    else if Sender.Digest(c.file) != job.digest then Err(DigestMismatch)
    else if c.pending.Some? && !removals.record then Err(IoFailed)
    else Ok(job.digest)
  }

  /** The result of an attempt from frame `i` on. */
  ghost function Verdict(job: Job, c: Course, frames: seq<Frame>, luck: seq<Luck>, removals: Removals, i: nat)
    : Result<Bytes, ReceiveError>
    requires c.Valid(job) && |luck| == |frames| && i <= |frames|
    decreases |frames| - i
  {
    if i == |frames| then Err(ConnectionLost)
    else
      match frames[i]
      case UnexpectedFrame => Err(BadFrameType)
      case EndFrame => AtEnd(job, c, luck[i], removals)
      case ChunkFrame(payload) =>
        var next := AfterChunk(job, c, payload, luck[i]);
        if next.Err? then Err(next.error) else Verdict(job, next.value, frames, luck, removals, i + 1)
  }

  /** Where an attempt starts: what the record names is held, and the file has its length. */
  ghost function Opening(disk: Disk, job: Job, useDb: bool, readable: bool): (c: Course)
    requires disk.Valid() && job.ctx.Admitted()
    ensures c.Valid(job)
  {
    Course(BeginSession(disk, job, useDb, readable).have, Fitted(disk.file, job.ctx.size),
           if useDb then Some(0) else None)
  }

  /** The state after the first `n` frames, while all of them are chunks that go well. */
  ghost function Walk(job: Job, c: Course, frames: seq<Frame>, luck: seq<Luck>, n: nat): (r: Option<Course>)
    requires c.Valid(job) && |luck| == |frames| && n <= |frames|
    ensures r.Some? ==> r.value.Valid(job)
  {
    if n == 0 then Some(c)
    else
      var before := Walk(job, c, frames, luck, n - 1);
      if before.None? || !frames[n - 1].ChunkFrame? then None
      else
        var next := AfterChunk(job, before.value, frames[n - 1].payload, luck[n - 1]);
        if next.Ok? then Some(next.value) else None
  }

  // --- The frames that matter ---

  /** The chunk a frame names. */
  function IndexOf(f: Frame): Option<nat> {
    if f.ChunkFrame? && Decode(f.payload).Ok? then Some(Decode(f.payload).value.index) else None
  }

  /** A frame is the first to bring a chunk that is not held at the start. */
  ghost predicate New(have: seq<bool>, frames: seq<Frame>, k: nat)
    requires k < |frames|
  {
    && IndexOf(frames[k]).Some? && IndexOf(frames[k]).value < |have| && !have[IndexOf(frames[k]).value]
    && forall j :: 0 <= j < k ==> IndexOf(frames[j]) != IndexOf(frames[k])
  }

  ghost function NewCount(have: seq<bool>, frames: seq<Frame>, n: nat): nat
    requires n <= |frames|
  {
    if n == 0 then 0 else NewCount(have, frames, n - 1) + if New(have, frames, n - 1) then 1 else 0
  }

  ghost predicate Named(frames: seq<Frame>, n: nat, i: nat)
    requires n <= |frames|
  {
    exists k :: 0 <= k < n && IndexOf(frames[k]) == Some(i)
  }

  function Nothing(n: nat): (have: seq<bool>)
    ensures |have| == n
  {
    seq(n, _ => false)
  }

  /** What a frame's record brings, whoever holds what: its index and plaintext, or the reason to refuse it. */
  function Brought(job: Job, f: Frame): Result<Option<(nat, Bytes)>, TransferError>
    requires job.ctx.Admitted() && f.ChunkFrame?
  {
    Check(job, Nothing(job.ctx.chunkCount), f.payload)
  }

  /** The system calls for a new chunk go well: its write, its route, and every 64th time a checkpoint. */
  ghost predicate Lucky(c: Course, frames: seq<Frame>, luck: seq<Luck>, k: nat)
    requires |luck| == |frames| && k < |frames|
  {
    && luck[k].tearsAt.None? && !luck[k].routeRefused
    && (c.pending.Some? && (c.pending.value + NewCount(c.have, frames, k + 1)) % 64 == 0 ==>
          luck[k].sync && luck[k].checkpoint.Succeeds?)
  }

  /** A frame goes well: it names a chunk of the object, and if it is the first to, the chunk is right and is stored. */
  ghost predicate Lands(job: Job, c: Course, frames: seq<Frame>, luck: seq<Luck>, k: nat)
    requires c.Valid(job) && |luck| == |frames| && k < |frames|
  {
    && IndexOf(frames[k]).Some? && IndexOf(frames[k]).value < |c.have|
    && (New(c.have, frames, k) ==> Brought(job, frames[k]).Ok? && Lucky(c, frames, luck, k))
  }

  /** A check answers for a held chunk without looking further, and for any other as if nothing were held. */
  lemma CheckSplits(job: Job, have: seq<bool>, f: Frame)
    requires job.ctx.Admitted() && |have| == job.ctx.chunkCount && f.ChunkFrame?
    ensures Check(job, have, f.payload).Ok? ==> IndexOf(f).Some? && IndexOf(f).value < |have|
    ensures IndexOf(f).Some? && IndexOf(f).value < |have| ==>
              var i := IndexOf(f).value;
              && Check(job, have, f.payload) == (if have[i] then Ok(None) else Brought(job, f))
              && (Brought(job, f).Ok? ==> Brought(job, f).value.Some? && Brought(job, f).value.value.0 == i)
  {
    hide Decode, AllowedChunkSize, Proves, DecryptChunk, LeafHash, ObjectContext.Len;
  }

  /** The first `n` frames have gone well: what is held, and how many chunks are pending. */
  ghost predicate Reached(job: Job, c: Course, frames: seq<Frame>, luck: seq<Luck>, n: nat, d: Course)
    requires c.Valid(job) && |luck| == |frames| && n <= |frames|
  {
    && |d.have| == |c.have| && (forall i :: 0 <= i < |c.have| ==> (d.have[i] <==> c.have[i] || Named(frames, n, i)))
    && d.pending.Some? == c.pending.Some?
    && (c.pending.Some? ==> d.pending.value == (c.pending.value + NewCount(c.have, frames, n)) % 64)
  }

  lemma NamedMore(frames: seq<Frame>, n: nat, i: nat)
    requires n < |frames|
    ensures Named(frames, n + 1, i) <==> Named(frames, n, i) || IndexOf(frames[n]) == Some(i)
  {
  }

  lemma NewIff(have: seq<bool>, frames: seq<Frame>, n: nat, i: nat)
    requires n < |frames| && IndexOf(frames[n]) == Some(i) && i < |have|
    ensures New(have, frames, n) <==> !have[i] && !Named(frames, n, i)
  {
  }

  /** The file with what a frame brings, if it is to be stored. */
  ghost function FileWith(job: Job, d: Course, f: Frame, stored: bool): (file: Bytes)
    requires d.Valid(job) && f.ChunkFrame? && (stored ==> Brought(job, f).Ok?)
    ensures |file| == |d.file|
  {
    if !stored then d.file
    else
      StoredFits(job, d, f);
      Placed(job.ctx, d.file, IndexOf(f).value, Brought(job, f).value.value.1)
  }

  /** One more frame: it goes well exactly when it lands, and then the books still agree. */
  lemma WalkStep(job: Job, c: Course, frames: seq<Frame>, luck: seq<Luck>, n: nat, d: Course)
    requires c.Valid(job) && |luck| == |frames| && n < |frames| && d.Valid(job)
    requires Reached(job, c, frames, luck, n, d) && frames[n].ChunkFrame?
    ensures var next := AfterChunk(job, d, frames[n].payload, luck[n]);
            && (next.Ok? <==> Lands(job, c, frames, luck, n))
            && (next.Ok? ==> Reached(job, c, frames, luck, n + 1, next.value))
            && (next.Ok? ==> next.value.file == FileWith(job, d, frames[n], New(c.have, frames, n)))
  {
    hide AllowedChunkSize, Check, Decode, ObjectContext.Start, ObjectContext.Len, Placed, Named, New;
    CheckSplits(job, d.have, frames[n]);
    if IndexOf(frames[n]).Some? && IndexOf(frames[n]).value < |c.have| {
      var i := IndexOf(frames[n]).value;
      NewIff(c.have, frames, n, i);
      forall j: nat | j < |c.have| ensures Named(frames, n + 1, j) <==> Named(frames, n, j) || i == j {
        NamedMore(frames, n, j);
      }
      if New(c.have, frames, n) && Brought(job, frames[n]).Ok? {
        StoredFits(job, d, frames[n]);
      }
    }
  }

  lemma StoredFits(job: Job, d: Course, f: Frame)
    requires d.Valid(job) && f.ChunkFrame? && Brought(job, f).Ok?
    ensures IndexOf(f).Some? && IndexOf(f).value < |d.have| && Brought(job, f).value.Some?
    ensures Brought(job, f).value.value.0 == IndexOf(f).value
    ensures |Brought(job, f).value.value.1| == job.ctx.Len(IndexOf(f).value)
    ensures job.ctx.Start(IndexOf(f).value) + |Brought(job, f).value.value.1| <= job.ctx.size
  {
    hide AllowedChunkSize, Check, Decode, Committed, Directions, ObjectContext.Start;
    var none := Nothing(job.ctx.chunkCount);
    CheckSplits(job, none, f);
    AcceptedFits(job, none, f.payload);
    AcceptedIsCommitted(job, none, f.payload);
  }

  /** The walk goes through exactly while every frame lands. */
  lemma {:induction false} WalkIff(job: Job, c: Course, frames: seq<Frame>, luck: seq<Luck>, n: nat)
    requires c.Valid(job) && |luck| == |frames| && n <= |frames|
    ensures Walk(job, c, frames, luck, n).Some? <==> forall k :: 0 <= k < n ==> Lands(job, c, frames, luck, k)
    ensures Walk(job, c, frames, luck, n).Some? ==>
              Reached(job, c, frames, luck, n, Walk(job, c, frames, luck, n).value)
  {
    hide Lands, Reached, AfterChunk, Course.Valid, FileWith, New;
    if n == 0 {
      WalkStarts(job, c, frames, luck);
    } else {
      WalkIff(job, c, frames, luck, n - 1);
      var before := Walk(job, c, frames, luck, n - 1);
      if before.Some? {
        if frames[n - 1].ChunkFrame? {
          WalkStep(job, c, frames, luck, n - 1, before.value);
        } else {
          OnlyChunksLand(job, c, frames, luck, n - 1);
        }
      }
    }
  }

  lemma WalkStarts(job: Job, c: Course, frames: seq<Frame>, luck: seq<Luck>)
    requires c.Valid(job) && |luck| == |frames|
    ensures Reached(job, c, frames, luck, 0, c)
  {
    hide ObjectContext.Admitted;
  }

  lemma OnlyChunksLand(job: Job, c: Course, frames: seq<Frame>, luck: seq<Luck>, k: nat)
    requires c.Valid(job) && |luck| == |frames| && k < |frames| && !frames[k].ChunkFrame?
    ensures !Lands(job, c, frames, luck, k)
  {
    hide ObjectContext.Admitted;
  }

  // --- The file ---

  /** Every chunk of this content is what the start held there, or what the first frame to name it brought. */
  ghost predicate Assembles(job: Job, c: Course, frames: seq<Frame>, n: nat, content: Bytes)
    requires c.Valid(job) && n <= |frames|
  {
    && |content| == job.ctx.size
    && (forall i: nat :: i < job.ctx.chunkCount && c.have[i] ==>
          Slice(job.ctx, content, i) == Slice(job.ctx, c.file, i))
    && (forall k :: 0 <= k < n && New(c.have, frames, k) ==>
          && frames[k].ChunkFrame? && Brought(job, frames[k]).Ok? && Brought(job, frames[k]).value.Some?
          && IndexOf(frames[k]).value < job.ctx.chunkCount
          && Slice(job.ctx, content, IndexOf(frames[k]).value) == Brought(job, frames[k]).value.value.1)
  }

  /** Bytes put into a file are there, and all others stay. */
  lemma Spliced(file: Bytes, at: nat, bytes: Bytes, lo: nat, hi: nat)
    requires at + |bytes| <= |file| && lo <= hi <= |file|
    ensures var f := file[..at] + bytes + file[at + |bytes|..];
            && f[at..at + |bytes|] == bytes
            && (hi <= at || at + |bytes| <= lo ==> f[lo..hi] == file[lo..hi])
  {
  }

  /** Placing a chunk changes its slice and no other. */
  lemma PlacedSlices(ctx: ObjectContext, file: Bytes, index: nat, plaintext: Bytes, j: nat)
    requires ctx.Admitted() && |file| == ctx.size && index < ctx.chunkCount && j < ctx.chunkCount
    requires |plaintext| == ctx.Len(index) && ctx.Start(index) + |plaintext| <= |file|
    ensures Slice(ctx, Placed(ctx, file, index, plaintext), j) == if j == index then plaintext else Slice(ctx, file, j)
  {
    hide ObjectContext.Admitted, ObjectContext.Len, ObjectContext.Start;
    SliceInside(ctx, j);
    SlicesApart(ctx, index, j);
    Spliced(file, ctx.Start(index), plaintext, ctx.Start(j), ctx.Start(j) + ctx.Len(j));
  }

  lemma SlicesApart(ctx: ObjectContext, i: nat, j: nat)
    requires ctx.Admitted() && i < ctx.chunkCount && j < ctx.chunkCount
    ensures i < j ==> ctx.Start(i) + ctx.Len(i) <= ctx.Start(j)
    ensures j < i ==> ctx.Start(j) + ctx.Len(j) <= ctx.Start(i)
  {
    hide AllowedChunkSize;
    ChunksMeet(ctx, i);
    ChunksMeet(ctx, j);
    if i < j {
      Products(i + 1, ctx.chunkSize, j, ctx.chunkSize);
    } else if j < i {
      Products(j + 1, ctx.chunkSize, i, ctx.chunkSize);
    }
  }

  lemma {:induction false} WalkAssembles(job: Job, c: Course, frames: seq<Frame>, luck: seq<Luck>, n: nat)
    requires c.Valid(job) && |luck| == |frames| && n <= |frames| && Walk(job, c, frames, luck, n).Some?
    ensures Assembles(job, c, frames, n, Walk(job, c, frames, luck, n).value.file)
  {
    hide AllowedChunkSize, AfterChunk, Lands, Reached, Slice, Placed, Brought, New, ObjectContext.Len,
         ObjectContext.Start;
    if n > 0 {
      WalkIff(job, c, frames, luck, n - 1);
      WalkAssembles(job, c, frames, luck, n - 1);
      var d := Walk(job, c, frames, luck, n - 1).value;
      WalkStep(job, c, frames, luck, n - 1, d);
      AssemblesMore(job, c, frames, luck, n - 1, d);
    }
  }

  lemma StoredSlices(job: Job, d: Course, f: Frame, j: nat)
    requires d.Valid(job) && f.ChunkFrame? && Brought(job, f).Ok? && j < job.ctx.chunkCount
    ensures IndexOf(f).Some? && Brought(job, f).value.Some?
    ensures Slice(job.ctx, FileWith(job, d, f, true), j) ==
            if j == IndexOf(f).value then Brought(job, f).value.value.1 else Slice(job.ctx, d.file, j)
  {
    hide AllowedChunkSize, Slice, Placed, Brought, ObjectContext.Len, ObjectContext.Start;
    StoredFits(job, d, f);
    PlacedSlices(job.ctx, d.file, IndexOf(f).value, Brought(job, f).value.value.1, j);
  }

  lemma AssemblesMore(job: Job, c: Course, frames: seq<Frame>, luck: seq<Luck>, n: nat, d: Course)
    requires c.Valid(job) && d.Valid(job) && |luck| == |frames| && n < |frames| && Assembles(job, c, frames, n, d.file)
    requires frames[n].ChunkFrame? && Lands(job, c, frames, luck, n)
    ensures Assembles(job, c, frames, n + 1, FileWith(job, d, frames[n], New(c.have, frames, n)))
  {
    hide ObjectContext.Admitted, Slice, FileWith, Brought, IndexOf, ObjectContext.Len, ObjectContext.Start, Lucky;
    var f := frames[n];
    if New(c.have, frames, n) {
      forall j: nat | j < job.ctx.chunkCount
        ensures IndexOf(f).Some? && Brought(job, f).value.Some?
        ensures Slice(job.ctx, FileWith(job, d, f, true), j) ==
                if j == IndexOf(f).value then Brought(job, f).value.value.1 else Slice(job.ctx, d.file, j)
      {
        StoredSlices(job, d, f, j);
      }
    } else {
      assert FileWith(job, d, f, false) == d.file by { NothingStored(job, d, f); }
    }
  }

  lemma NothingStored(job: Job, d: Course, f: Frame)
    requires d.Valid(job) && f.ChunkFrame?
    ensures FileWith(job, d, f, false) == d.file
  {
    hide ObjectContext.Admitted;
  }

  /** Once every chunk is held or named, only one content assembles. */
  lemma OneContent(job: Job, c: Course, frames: seq<Frame>, n: nat, x: Bytes, y: Bytes)
    requires c.Valid(job) && n <= |frames| && Assembles(job, c, frames, n, x) && Assembles(job, c, frames, n, y)
    requires forall i: nat :: i < job.ctx.chunkCount ==> c.have[i] || Named(frames, n, i)
    ensures x == y
  {
    hide AllowedChunkSize, Slice, Brought;
    forall i: nat | i < job.ctx.chunkCount ensures Slice(job.ctx, x, i) == Slice(job.ctx, y, i) {
      if !c.have[i] {
        var k := FirstNamed(frames, n, i);
        assert New(c.have, frames, k);
      }
    }
    FilesAgree(job.ctx, x, y);
  }

  lemma FirstNamed(frames: seq<Frame>, n: nat, i: nat) returns (k: nat)
    requires n <= |frames| && Named(frames, n, i)
    ensures k < n && IndexOf(frames[k]) == Some(i) && forall j :: 0 <= j < k ==> IndexOf(frames[j]) != Some(i)
  {
    hide IndexOf;
    k := 0;
    while k < n && IndexOf(frames[k]) != Some(i)
      invariant k <= n && forall j :: 0 <= j < k ==> IndexOf(frames[j]) != Some(i)
    {
      k := k + 1;
    }
  }

  // --- Exactly when an attempt ends how ---

  /** The results that only the end of a stream can give. */
  predicate Closing(r: Result<Bytes, ReceiveError>) {
    r.Ok? || r.error == Incomplete || r.error == DigestMismatch
  }

  /** The stream ends at frame `n`, with this result. */
  ghost predicate EndsWith(job: Job, c: Course, frames: seq<Frame>, luck: seq<Luck>, removals: Removals, n: nat,
                           r: Result<Bytes, ReceiveError>)
    requires c.Valid(job) && |luck| == |frames| && n < |frames|
  {
    && frames[n].EndFrame? && Walk(job, c, frames, luck, n).Some?
    && AtEnd(job, Walk(job, c, frames, luck, n).value, luck[n], removals) == r
  }

  lemma {:induction false} VerdictIff(job: Job, c: Course, frames: seq<Frame>, luck: seq<Luck>, removals: Removals,
                                      i: nat, d: Course, r: Result<Bytes, ReceiveError>)
    requires c.Valid(job) && d.Valid(job) && |luck| == |frames| && i <= |frames| && Closing(r)
    requires Walk(job, c, frames, luck, i) == Some(d)
    ensures Verdict(job, d, frames, luck, removals, i) == r <==>
            exists n: nat :: i <= n < |frames| && EndsWith(job, c, frames, luck, removals, n, r)
    decreases |frames| - i
  {
    hide AfterChunk, Course.Valid, AtEnd;
    if i < |frames| {
      var next := Walk(job, c, frames, luck, i + 1);
      if next.Some? {
        VerdictIff(job, c, frames, luck, removals, i + 1, next.value, r);
      } else {
        forall n: nat | i < n < |frames| ensures !EndsWith(job, c, frames, luck, removals, n, r) {
          NoneOnward(job, c, frames, luck, i + 1, n);
        }
      }
      EndsHere(job, c, frames, luck, removals, i, d, r);
    }
  }

  /** What the frame at hand decides. */
  lemma EndsHere(job: Job, c: Course, frames: seq<Frame>, luck: seq<Luck>, removals: Removals, i: nat, d: Course,
                 r: Result<Bytes, ReceiveError>)
    requires c.Valid(job) && d.Valid(job) && |luck| == |frames| && i < |frames| && Closing(r)
    requires Walk(job, c, frames, luck, i) == Some(d)
    ensures EndsWith(job, c, frames, luck, removals, i, r) <==>
            frames[i].EndFrame? && Verdict(job, d, frames, luck, removals, i) == r
    ensures var next := Walk(job, c, frames, luck, i + 1);
            && (next.Some? ==>
                  && !frames[i].EndFrame? && next.value.Valid(job)
                  && Verdict(job, d, frames, luck, removals, i) ==
                     Verdict(job, next.value, frames, luck, removals, i + 1))
            && (next.None? && !frames[i].EndFrame? ==> Verdict(job, d, frames, luck, removals, i) != r)
  {
    hide AfterChunk, Course.Valid;
  }

  lemma {:induction false} NoneOnward(job: Job, c: Course, frames: seq<Frame>, luck: seq<Luck>, i: nat, n: nat)
    requires c.Valid(job) && |luck| == |frames| && i <= n <= |frames| && Walk(job, c, frames, luck, i).None?
    ensures Walk(job, c, frames, luck, n).None?
    decreases n - i
  {
    hide AfterChunk, Course.Valid;
    if i < n {
      NoneOnward(job, c, frames, luck, i, n - 1);
    }
  }

  /** Frame `n` ends the stream after frames that all land. */
  ghost predicate Closes(job: Job, c: Course, frames: seq<Frame>, luck: seq<Luck>, n: nat)
    requires c.Valid(job) && |luck| == |frames|
  {
    n < |frames| && frames[n].EndFrame? && forall k :: 0 <= k < n ==> Lands(job, c, frames, luck, k)
  }

  ghost predicate AllBrought(job: Job, c: Course, frames: seq<Frame>, n: nat)
    requires c.Valid(job) && n <= |frames|
  {
    forall i: nat :: i < job.ctx.chunkCount ==> c.have[i] || Named(frames, n, i)
  }

  /** Success at frame `n`: all that was missing was brought, and it is the file. */
  ghost predicate Arrives(job: Job, c: Course, frames: seq<Frame>, luck: seq<Luck>, removals: Removals, n: nat,
                          content: Bytes)
    requires c.Valid(job) && |luck| == |frames|
  {
    && Closes(job, c, frames, luck, n) && AllBrought(job, c, frames, n)
    && Assembles(job, c, frames, n, content) && Sender.Digest(content) == job.digest
    && luck[n].sync && (c.pending.Some? ==> removals.record)
  }

  /** All was brought and synced, and it is not the file that was claimed. */
  ghost predicate Differs(job: Job, c: Course, frames: seq<Frame>, luck: seq<Luck>, n: nat, content: Bytes)
    requires c.Valid(job) && |luck| == |frames|
  {
    && Closes(job, c, frames, luck, n) && AllBrought(job, c, frames, n)
    && Assembles(job, c, frames, n, content) && Sender.Digest(content) != job.digest && luck[n].sync
  }

  /** The stream ended too early, and what arrived is recorded if there is a record. */
  ghost predicate FallsShort(job: Job, c: Course, frames: seq<Frame>, luck: seq<Luck>, n: nat)
    requires c.Valid(job) && |luck| == |frames|
  {
    && Closes(job, c, frames, luck, n) && !AllBrought(job, c, frames, n)
    && (c.pending.Some? ==> luck[n].sync && luck[n].checkpoint.Succeeds?)
  }

  /** How the stream ends at frame `n`, in terms of the frames. */
  lemma EndsWithIff(job: Job, c: Course, frames: seq<Frame>, luck: seq<Luck>, removals: Removals, n: nat)
    requires c.Valid(job) && |luck| == |frames| && n < |frames|
    ensures EndsWith(job, c, frames, luck, removals, n, Ok(job.digest)) <==>
            exists content :: Arrives(job, c, frames, luck, removals, n, content)
    ensures EndsWith(job, c, frames, luck, removals, n, Err(DigestMismatch)) <==>
            exists content :: Differs(job, c, frames, luck, n, content)
    ensures EndsWith(job, c, frames, luck, removals, n, Err(Incomplete)) <==> FallsShort(job, c, frames, luck, n)
  {
    hide AllowedChunkSize, Lands, Assembles, Sender.Digest, Named, NewCount, AllBrought;
    WalkIff(job, c, frames, luck, n);
    if Walk(job, c, frames, luck, n).Some? {
      var d := Walk(job, c, frames, luck, n).value;
      WalkAssembles(job, c, frames, luck, n);
      CompleteIff(job, c, frames, luck, n, d);
      if Complete(d.have) {
        forall content | Assembles(job, c, frames, n, content) ensures content == d.file {
          OneContent(job, c, frames, n, content, d.file);
        }
        assert Arrives(job, c, frames, luck, removals, n, d.file) <==>
               EndsWith(job, c, frames, luck, removals, n, Ok(job.digest));
        assert Differs(job, c, frames, luck, n, d.file) <==>
               EndsWith(job, c, frames, luck, removals, n, Err(DigestMismatch));
      }
    }
  }

  lemma CompleteIff(job: Job, c: Course, frames: seq<Frame>, luck: seq<Luck>, n: nat, d: Course)
    requires c.Valid(job) && |luck| == |frames| && n <= |frames| && Reached(job, c, frames, luck, n, d)
    ensures Complete(d.have) <==> AllBrought(job, c, frames, n)
  {
    hide AllowedChunkSize, Named, NewCount;
    if Complete(d.have) {
      forall i: nat | i < job.ctx.chunkCount ensures c.have[i] || Named(frames, n, i) {
        assert d.have[i];
      }
    }
  }

  lemma ClosingIff(job: Job, c: Course, frames: seq<Frame>, luck: seq<Luck>, removals: Removals,
                   r: Result<Bytes, ReceiveError>)
    requires c.Valid(job) && |luck| == |frames| && Closing(r)
    ensures Verdict(job, c, frames, luck, removals, 0) == r <==>
            exists n: nat :: n < |frames| && EndsWith(job, c, frames, luck, removals, n, r)
  {
    hide Verdict, EndsWith, Course.Valid;
    assert Walk(job, c, frames, luck, 0) == Some(c);
    VerdictIff(job, c, frames, luck, removals, 0, c, r);
    if n: nat :| n < |frames| && EndsWith(job, c, frames, luck, removals, n, r) {
      assert 0 <= n < |frames| && EndsWith(job, c, frames, luck, removals, n, r);
    }
  }

  /**
   An attempt succeeds exactly when some frame ends the stream, every frame before it lands,
   together they bring every chunk that was missing, the content this makes has the claimed
   digest, the last sync succeeds, and the record, if there is one, can be removed.
   */
  lemma SucceedsIff(job: Job, c: Course, frames: seq<Frame>, luck: seq<Luck>, removals: Removals)
    requires c.Valid(job) && |luck| == |frames|
    ensures Verdict(job, c, frames, luck, removals, 0).Ok? <==>
            exists n: nat, content :: Arrives(job, c, frames, luck, removals, n, content)
    ensures Verdict(job, c, frames, luck, removals, 0).Ok? ==>
              Verdict(job, c, frames, luck, removals, 0).value == job.digest
  {
    hide Verdict, EndsWith, Assembles, Lands, AllBrought, Course.Valid;
    var r := Verdict(job, c, frames, luck, removals, 0);
    if r.Ok? {
      ClosingIff(job, c, frames, luck, removals, r);
      var n: nat :| n < |frames| && EndsWith(job, c, frames, luck, removals, n, r);
      OnlyTheClaimed(job, c, frames, luck, removals, n, r);
      EndsWithIff(job, c, frames, luck, removals, n);
    }
    if n: nat, content :| Arrives(job, c, frames, luck, removals, n, content) {
      EndsWithIff(job, c, frames, luck, removals, n);
      ClosingIff(job, c, frames, luck, removals, Ok(job.digest));
    }
  }

  lemma OnlyTheClaimed(job: Job, c: Course, frames: seq<Frame>, luck: seq<Luck>, removals: Removals, n: nat,
                       r: Result<Bytes, ReceiveError>)
    requires c.Valid(job) && |luck| == |frames| && n < |frames|
    requires EndsWith(job, c, frames, luck, removals, n, r) && r.Ok?
    ensures r.value == job.digest
  {
    hide Course.Valid, Walk;
  }

  /** The two failures that the end of the stream can bring when all calls go well, each with its exact condition. */
  lemma FailsIff(job: Job, c: Course, frames: seq<Frame>, luck: seq<Luck>, removals: Removals)
    requires c.Valid(job) && |luck| == |frames|
    ensures Verdict(job, c, frames, luck, removals, 0) == Err(Incomplete) <==>
            exists n: nat :: FallsShort(job, c, frames, luck, n)
    ensures Verdict(job, c, frames, luck, removals, 0) == Err(DigestMismatch) <==>
            exists n: nat, content :: Differs(job, c, frames, luck, n, content)
  {
    hide Verdict, EndsWith, Assembles, Lands, AllBrought, Course.Valid;
    ClosingIff(job, c, frames, luck, removals, Err(Incomplete));
    ClosingIff(job, c, frames, luck, removals, Err(DigestMismatch));
    if n: nat :| n < |frames| && EndsWith(job, c, frames, luck, removals, n, Err(Incomplete)) {
      EndsWithIff(job, c, frames, luck, removals, n);
    }
    if n: nat :| FallsShort(job, c, frames, luck, n) {
      EndsWithIff(job, c, frames, luck, removals, n);
    }
    if n: nat :| n < |frames| && EndsWith(job, c, frames, luck, removals, n, Err(DigestMismatch)) {
      EndsWithIff(job, c, frames, luck, removals, n);
    }
    if n: nat, content :| Differs(job, c, frames, luck, n, content) {
      EndsWithIff(job, c, frames, luck, removals, n);
    }
  }
}
