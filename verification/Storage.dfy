/**
 What the receiver keeps on disk: the object file and the resume record (`resume.rs`), with
 what a crash can do to them.

 A write reaches the file at once but is only certain to survive a crash after a sync. Until
 then each byte may come back as the value last synced or any value written since. Bytes that a
 file gains by being lengthened, or had when it was removed or cut off, may come back as
 anything, or not at all: storage that was never synced may show stale content. The
 record is replaced by a rename, so a crash leaves some whole record; which one is certain
 only once the directory has been synced.
 */
module Storage {
  import opened Octets
  import opened Merkle

  /** Which object a record belongs to. */
  datatype ObjectIdentity = ObjectIdentity(transferId: Bytes, objectId: Bytes, commitment: Bytes, root: Hash,
                                           chunkCount: nat, chunkCiphertextSize: nat, size: nat) {
    /** `matches`: the manifest commitment is left out, since an honest re-offer gets a new one. */
    predicate Matches(other: ObjectIdentity) {
      && transferId == other.transferId && objectId == other.objectId && root == other.root
      && chunkCount == other.chunkCount && chunkCiphertextSize == other.chunkCiphertextSize && size == other.size
    }
  }

  /** A record is for an object exactly when nothing but the commitment differs. */
  lemma MatchesIff(a: ObjectIdentity, b: ObjectIdentity)
    ensures a.Matches(b) <==> a.(commitment := b.commitment) == b
  {
    assert a.(commitment := b.commitment) == b ==> a.transferId == b.transferId;
  }

  datatype ResumeRecord = ResumeRecord(identity: ObjectIdentity, verified: seq<bool>, durable: seq<bool>) {
    ghost predicate WellFormed() {
      |verified| == identity.chunkCount && |durable| == identity.chunkCount && Subset(durable, verified)
    }
  }

  ghost predicate Subset(a: seq<bool>, b: seq<bool>) {
    |a| == |b| && forall i :: 0 <= i < |a| ==> a[i] ==> b[i]
  }

  function FreshRecord(identity: ObjectIdentity): ResumeRecord {
    var none := seq(identity.chunkCount, _ => false);
    ResumeRecord(identity, none, none)
  }

  /** The record adopted on opening: the stored one if it is for this object, else a fresh one. */
  function Adopt(stored: Option<ResumeRecord>, identity: ObjectIdentity): ResumeRecord {
    if stored.Some? && stored.value.identity.Matches(identity) then stored.value else FreshRecord(identity)
  }

  /** A file's content at another length: cut off, or extended with zeros. */
  function Fitted(file: Bytes, n: nat): (f: Bytes)
    ensures |f| == n
  {
    if n <= |file| then file[..n] else file + seq(n - |file|, _ => Lit(0))
  }

  /**
   `survives` maps an offset to the values a crash may leave there; an offset outside it may
   come back as anything, or not at all. `candidates` are the records a crash may leave.
   */
  datatype Disk = Disk(file: Bytes, survives: map<nat, set<Octet>>, record: Option<ResumeRecord>,
                       candidates: set<Option<ResumeRecord>>) {

    ghost predicate Valid() {
      && (forall o :: o in survives ==> o < |file| && file[o] in survives[o])
      && record in candidates
      && (forall c :: c in candidates && c.Some? ==> c.value.WellFormed())
    }

    /** Every byte of the file is certain to survive. */
    ghost predicate Synced() {
      forall o: nat :: o < |file| ==> o in survives && survives[o] == {file[o]}
    }

    function Write(offset: nat, data: Bytes): (d: Disk)
      requires offset + |data| <= |file|
      ensures |d.file| == |file|
    {
      Disk(file[..offset] + data + file[offset + |data|..],
           map o | o in survives :: if offset <= o < offset + |data| then survives[o] + {data[o - offset]}
               else survives[o],
           record, candidates)
    }

    /** `set_len`. */
    function Resize(n: nat): (d: Disk)
      ensures |d.file| == n
    {
      Disk(Fitted(file, n),
           map o | o in survives && o < n :: survives[o],
           record, candidates)
    }

    function Sync(): Disk {
      this.(survives := map o: nat | 0 <= o < |file| :: {file[o]})
    }

    /** The rename of a checkpoint; the directory sync after it is best effort. */
    function Commit(r: ResumeRecord, directorySynced: bool): Disk {
      this.(record := Some(r), candidates := if directorySynced then {Some(r)} else candidates + {Some(r)})
    }

    function RemoveRecord(): Disk {
      this.(record := None, candidates := candidates + {None})
    }

    function RemoveFile(): Disk {
      this.(file := [], survives := map[])
    }

    /** A crash may leave this file and this record. */
    ghost predicate MayCrashTo(left: Bytes, stored: Option<ResumeRecord>) {
      stored in candidates && forall o :: o in survives ==> o < |left| && left[o] in survives[o]
    }

    function AfterCrash(left: Bytes, stored: Option<ResumeRecord>): Disk {
      Disk(left, map o: nat | 0 <= o < |left| :: {left[o]}, stored, {stored})
    }
  }

  // --- The mutable resume database ---

  /** The disk as an object the database and the receiver share. */
  class Volume {
    var disk: Disk

    constructor (disk: Disk)
      ensures this.disk == disk
    {
      this.disk := disk;
    }
  }

  datatype ResumeError = Io | Corrupt | VersionMismatch

  /** How a checkpoint's system calls go. */
  datatype Outcome = Fails | Succeeds(directorySynced: bool)

  class ResumeDb {
    var record: ResumeRecord
    var pending: nat
    const interval: nat

    ghost predicate Valid()
      reads this
    {
      record.WellFormed() && interval > 0
    }

    /** `open`: anything unreadable or for another object is replaced by a fresh record. */
    constructor Open(volume: Volume, identity: ObjectIdentity, readable: bool, interval: nat)
      requires interval > 0 && volume.disk.Valid()
      ensures Valid() && pending == 0 && this.interval == interval
      ensures record == Adopt(if readable then volume.disk.record else None, identity)
    {
      var stored := if readable then volume.disk.record else None;
      record := Adopt(stored, identity);
      pending := 0;
      this.interval := interval;
    }

    method MarkVerified(index: nat) returns (r: Result<(), ResumeError>)
      requires Valid()
      modifies this
      ensures Valid() && pending == old(pending) && record.durable == old(record).durable &&
              record.identity == old(record).identity
      ensures r.Ok? <==> index < record.identity.chunkCount
      ensures r.Ok? ==> record.verified == old(record).verified[index := true]
      ensures r.Err? ==> record == old(record)
    {
      if index >= record.identity.chunkCount {
        return Err(Corrupt);
      }
      record := record.(verified := record.verified[index := true]);
      return Ok(());
    }

    /** Temp file, sync, rename, directory sync. */
    method Checkpoint(volume: Volume, outcome: Outcome) returns (r: Result<(), ResumeError>)
      requires Valid()
      modifies this, volume
      ensures Valid() && record == old(record)
      ensures outcome.Fails? ==> r == Err(Io) && volume.disk == old(volume.disk) && pending == old(pending)
      ensures outcome.Succeeds? ==>
              r == Ok(()) && volume.disk == old(volume.disk).Commit(record, outcome.directorySynced) && pending == 0
    {
      if outcome.Fails? {
        return Err(Io);
      }
      volume.disk := volume.disk.Commit(record, outcome.directorySynced);
      pending := 0;
      return Ok(());
    }

    /**
     Records that a chunk's bytes are in the file. When a checkpoint is due, the data is synced
     first and the record committed only if that succeeded.
     */
    method ChunkWritten(volume: Volume, index: nat, syncSucceeds: bool, outcome: Outcome)
      returns (r: Result<(), ResumeError>)
      requires Valid() && (index < record.identity.chunkCount ==> record.verified[index])
      modifies this, volume
      ensures Valid()
      ensures index >= old(record).identity.chunkCount ==>
                r == Err(Corrupt) && record == old(record) && pending == old(pending) && volume.disk == old(volume.disk)
      ensures index < old(record).identity.chunkCount ==>
                && record == old(record).(durable := old(record).durable[index := true])
                && (r.Ok? ==> pending < interval)
                && var due := old(pending) + (if old(record).durable[index] then 0 else 1);
                   var before := old(volume.disk);
                   if due < interval then r == Ok(()) && pending == due && volume.disk == before
                   else if !syncSucceeds then r == Err(Io) && volume.disk == before
                   else if outcome.Fails? then r == Err(Io) && volume.disk == before.Sync()
                   else (&& r == Ok(()) && pending == 0
                         && volume.disk == before.Sync().Commit(record, outcome.directorySynced))
    {
      if index >= record.identity.chunkCount {
        return Err(Corrupt);
      }
      if !record.durable[index] {
        pending := pending + 1;
      }
      record := record.(durable := record.durable[index := true]);
      if pending < interval {
        return Ok(());
      }
      if !syncSucceeds {
        return Err(Io);
      }
      volume.disk := volume.disk.Sync();
      r := Checkpoint(volume, outcome);
    }
  }
}
