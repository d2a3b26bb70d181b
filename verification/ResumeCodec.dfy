/**
 The resume record as a file (`resume.rs`): a checksum, then a map that holds the object's
 identity and the two bitmaps in run-length form.
 */
module ResumeCodec {
  import opened Octets
  import opened Cbor
  import opened CborValues
  import opened Storage
  import Merkle
  import R = Rle

  const RECORD_VERSION: U64 := 1
  const MAX_RECORD_BYTES := 8 * 1024 * 1024
  const MAX_CHUNK_COUNT := U32_LIMIT

  /** A record with what is kept beside it: the path of the file, and when it was last written. */
  datatype RecordFile = RecordFile(record: ResumeRecord, path: Bytes, lastActivity: U64) {
    ghost predicate Sized() {
      var i := record.identity;
      && |i.transferId| == ID_LEN && |i.objectId| == ID_LEN && |i.commitment| == ID_LEN
      && i.chunkCount <= MAX_CHUNK_COUNT && i.chunkCiphertextSize < U64_LIMIT && i.size < U64_LIMIT
      && |record.verified| == i.chunkCount && |record.durable| == i.chunkCount
      && |path| < U64_LIMIT && Utf8(path)
    }
  }

  // --- Bytes and octets ---

  function Lits(s: seq<Byte>): (o: Bytes)
    ensures |o| == |s|
  {
    seq(|s|, i requires 0 <= i < |s| => Lit(s[i]))
  }

  /** The literal bytes of a string, if they all are. */
  function Literal(o: Bytes): Option<seq<Byte>> {
    if forall i :: 0 <= i < |o| ==> o[i].Lit?
    then Some(seq(|o|, i requires 0 <= i < |o| && o[i].Lit? => o[i].b))
    else None
  }

  lemma LitsRead(s: seq<Byte>)
    ensures Literal(Lits(s)) == Some(s)
  {
    var o := Lits(s);
    assert seq(|o|, i requires 0 <= i < |o| && o[i].Lit? => o[i].b) == s;
  }

  // --- Encoding ---

  function PutBits(bits: seq<bool>, tail: Bytes): Bytes
    requires |bits| <= MAX_CHUNK_COUNT
  {
    RleShort(bits);
    PutBytes(Lits(R.Encode(bits)), tail)
  }

  /** Keys 8 to 11. */
  function PutState(f: RecordFile): Bytes
    requires f.Sized()
  {
    PutUint(8, PutBits(f.record.verified, PutUint(9, PutBits(f.record.durable,
      PutUint(10, PutText(f.path, PutUint(11, PutUint(f.lastActivity, []))))))))
  }

  function PutBody(f: RecordFile): Bytes
    requires f.Sized()
  {
    var i := f.record.identity;
    PutMap(12, PutUint(0, PutUint(RECORD_VERSION, PutUint(1, PutBytes(i.transferId, PutUint(2, PutBytes(i.objectId,
      PutUint(3, PutBytes(i.commitment, PutUint(4, PutBytes(i.root, PutUint(5, PutUint(i.chunkCount,
      PutUint(6, PutUint(i.chunkCiphertextSize, PutUint(7, PutUint(i.size, PutState(f))))))))))))))))))
  }

  function Checksum(body: Bytes): (h: Bytes)
    ensures |h| == ID_LEN
  {
    Tagged("RTP2-RESUME-RECORD-v1", body)
  }

  function Stamped(body: Bytes): Bytes {
    Checksum(body) + body
  }

  function Encode(f: RecordFile): Bytes
    requires f.Sized()
  {
    Stamped(PutBody(f))
  }

  // --- Decoding ---

  function ReadBits(bytes: Bytes, chunkCount: nat): Result<seq<bool>, ResumeError> {
    var raw := Literal(bytes);
    if raw.None? || chunkCount > MAX_CHUNK_COUNT then Err(Corrupt)
    else
      var bits := R.Decode(chunkCount, raw.value);
      if bits.Ok? then Ok(bits.value) else Err(Corrupt)
  }

  /** Keys 8 to 11, to the end of the input. */
  function ReadState(m: MapReader): Result<(Bytes, Bytes, Bytes, U64), CborError> {
    var (verified, m8) :- m.KeyBlob(8);
    var (durable, m9) :- m8.KeyBlob(9);
    var m10 :- m9.Key(10);
    var (path, c) :- ReadText(m10.reader);
    var (lastActivity, m11) :- m10.(reader := c).KeyUint(11);
    var end :- m11.Done();
    var _ :- end.Finish();
    Ok((verified, durable, path, lastActivity))
  }

  /** Two entries of 32 bytes, under `key` and the key after it. */
  function ReadPair(m: MapReader, key: U64): (r: Result<(Bytes, Bytes, MapReader), CborError>)
    requires key + 1 < U64_LIMIT
    ensures r.Ok? ==> |r.value.0| == |r.value.1| == ID_LEN
  {
    var (first, m1) :- m.KeyBlobOf(key, ID_LEN);
    var (second, m2) :- m1.KeyBlobOf(key + 1, ID_LEN);
    Ok((first, second, m2))
  }

  /** Keys 5 to 7. */
  function ReadSizes(m: MapReader): Result<(nat, nat, nat, MapReader), CborError> {
    var (chunkCount, m5) :- m.KeyUint(5);
    var (chunkCiphertextSize, m6) :- m5.KeyUint(6);
    var (size, m7) :- m6.KeyUint(7);
    Ok((chunkCount, chunkCiphertextSize, size, m7))
  }

  function ReadIdentity(m: MapReader): Result<(ObjectIdentity, MapReader), CborError> {
    var (transferId, objectId, m2) :- ReadPair(m, 1);
    var (commitment, root, m4) :- ReadPair(m2, 3);
    var (chunkCount, chunkCiphertextSize, size, m7) :- ReadSizes(m4);
    Ok((ObjectIdentity(transferId, objectId, commitment, root, chunkCount, chunkCiphertextSize, size), m7))
  }

  function ReadBody(body: Bytes): Result<RecordFile, ResumeError> {
    var m :- OrElse(Cursor(body, 0).Map(), Corrupt);
    var (version, m0) :- OrElse(m.KeyUint(0), Corrupt);
    if version != RECORD_VERSION then Err(VersionMismatch)
    else
      var (identity, m7) :- OrElse(ReadIdentity(m0), Corrupt);
      var (verifiedRle, durableRle, path, lastActivity) :- OrElse(ReadState(m7), Corrupt);
      var verified :- ReadBits(verifiedRle, identity.chunkCount);
      var durable :- ReadBits(durableRle, identity.chunkCount);
      Ok(RecordFile(ResumeRecord(identity, verified, durable), path, lastActivity))
  }

  function Decode(bytes: Bytes): Result<RecordFile, ResumeError> {
    if |bytes| < ID_LEN || |bytes| > MAX_RECORD_BYTES then Err(Corrupt)
    else if bytes[..ID_LEN] != Checksum(bytes[ID_LEN..]) then Err(Corrupt)
    else ReadBody(bytes[ID_LEN..])
  }

  // --- Run-length bitmaps are short ---

  lemma {:induction false} LebShort(v: nat)
    ensures |R.Leb(v)| <= v + 1 && (v > 0 ==> |R.Leb(v)| <= v)
  {
    if v >= 128 {
      LebShort(v / 128);
    }
  }

  lemma {:induction false} LebAllShort(runs: seq<nat>)
    requires forall k :: 1 <= k < |runs| ==> runs[k] > 0
    ensures |R.LebAll(runs)| <= R.Sum(runs) + 1
    ensures runs != [] && runs[0] > 0 ==> |R.LebAll(runs)| <= R.Sum(runs)
    decreases |runs|
  {
    hide R.Leb;
    if runs != [] {
      LebShort(runs[0]);
      LebAllShort(runs[1..]);
    }
  }

  /** At most one byte for each bit, and one more. */
  lemma RleShort(bits: seq<bool>)
    ensures |R.Encode(bits)| <= |bits| + 1
  {
    var runs := R.Runs(bits, 0, false);
    R.RunsAlternate(bits, 0, false);
    R.RunsExpand(bits, 0, false);
    R.ExpandLength(runs, false);
    assert bits[0..] == bits;
    LebAllShort(runs);
  }

  // --- Reading back ---

  lemma TextReads(value: Bytes, tail: Bytes, d: nat)
    requires |value| < U64_LIMIT && Utf8(value)
    ensures ReadText(Cursor(PutText(value, tail), d)) == Ok((value, Cursor(tail, d)))
  {
    HeadReads(MAJOR_TEXT, |value|, value + tail);
    hide PutHead, Utf8;
    assert (value + tail)[..|value|] == value && (value + tail)[|value|..] == tail;
  }

  lemma BitsRead(bits: seq<bool>)
    requires |bits| <= MAX_CHUNK_COUNT
    ensures ReadBits(Lits(R.Encode(bits)), |bits|) == Ok(bits)
  {
    hide R.Encode, R.Decode, Literal;
    LitsRead(R.Encode(bits));
    R.RoundTrip(bits);
  }

  lemma StateReads(f: RecordFile)
    requires f.Sized()
    ensures |R.Encode(f.record.verified)| < U64_LIMIT && |R.Encode(f.record.durable)| < U64_LIMIT
    ensures ReadState(MapReader(Cursor(PutState(f), 1), 4, Some(7))) ==
            Ok((Lits(R.Encode(f.record.verified)), Lits(R.Encode(f.record.durable)), f.path, f.lastActivity))
  {
    hide PutHead, PutUint, PutBytes, PutText, ReadText, Cursor.Uint, Cursor.Blob, R.Encode, Utf8;
    RleShort(f.record.verified);
    RleShort(f.record.durable);
    ReadsBack();
    TextReads(f.path, PutUint(11, PutUint(f.lastActivity, [])), 1);
  }

  lemma BodyReads(f: RecordFile)
    requires f.Sized()
    ensures ReadBody(PutBody(f)) == Ok(f)
  {
    hide PutHead, PutUint, PutBytes, PutMap, PutState, ReadState, ReadBits, Cursor.Uint, Cursor.Blob, Cursor.Map,
         R.Encode, Utf8;
    ReadsBack();
    StateReads(f);
    BitsRead(f.record.verified);
    BitsRead(f.record.durable);
  }

  /** A record written by a checkpoint is read back exactly when it is within the size limit. */
  lemma RecordReads(f: RecordFile)
    requires f.Sized()
    ensures Decode(Encode(f)) == if |Encode(f)| <= MAX_RECORD_BYTES then Ok(f) else Err(Corrupt)
  {
    hide PutBody, ReadBody, Checksum;
    var body := PutBody(f);
    assert Stamped(body)[..ID_LEN] == Checksum(body) && Stamped(body)[ID_LEN..] == body;
    BodyReads(f);
  }

  /** What `open` finds in the file. */
  function Stored(file: Option<Bytes>): Option<ResumeRecord> {
    if file.Some? && Decode(file.value).Ok? then Some(Decode(file.value).value.record) else None
  }

  /** So opening adopts just the record last written, or starts over. */
  lemma OpenAdopts(f: RecordFile, identity: ObjectIdentity)
    requires f.Sized()
    ensures Adopt(Stored(Some(Encode(f))), identity) ==
            if |Encode(f)| <= MAX_RECORD_BYTES && f.record.identity.Matches(identity) then f.record
            else FreshRecord(identity)
  {
    hide Encode, Decode, FreshRecord;
    RecordReads(f);
  }

  /** That covers every object the receiver can complete, and far larger ones. */
  lemma RecordFits(f: RecordFile)
    requires f.Sized() && 2 * f.record.identity.chunkCount + |f.path| <= MAX_RECORD_BYTES - 1000
    ensures |Encode(f)| <= MAX_RECORD_BYTES
  {
    hide PutUint, PutBytes, PutMap, PutHead, R.Encode, Utf8, Checksum;
    Lengths();
    RleShort(f.record.verified);
    RleShort(f.record.durable);
    TextShort(f.path, PutUint(11, PutUint(f.lastActivity, [])));
  }

  lemma TextShort(value: Bytes, tail: Bytes)
    requires |value| < U64_LIMIT
    ensures |PutText(value, tail)| <= 9 + |value| + |tail|
  {
  }

  /** Any record that decodes has bitmaps of its chunk count, and its checksum admits no other bytes. */
  lemma ChecksumFixesRecord(a: Bytes, b: Bytes)
    requires Decode(a).Ok? && Decode(b).Ok? && a[..ID_LEN] == b[..ID_LEN]
    ensures a == b
  {
    hide ReadBody;
    TaggedSplits("RTP2-RESUME-RECORD-v1", a[ID_LEN..], b[ID_LEN..]);
    assert a == a[..ID_LEN] + a[ID_LEN..] && b == b[..ID_LEN] + b[ID_LEN..];
  }

  lemma DecodedBits(bytes: Bytes)
    requires Decode(bytes).Ok?
    ensures var r := Decode(bytes).value.record;
            |r.verified| == r.identity.chunkCount && |r.durable| == r.identity.chunkCount <= MAX_CHUNK_COUNT
  {
    hide ReadIdentity, ReadState, Checksum, Literal, R.Decode, Cursor.Map, MapReader.KeyUint;
    var body := bytes[ID_LEN..];
    var m0 := Cursor(body, 0).Map().value.KeyUint(0).value.1;
    var (identity, m7) := ReadIdentity(m0).value;
    var state := ReadState(m7).value;
    R.DecodeIsExact(identity.chunkCount, Literal(state.0).value);
    R.DecodeIsExact(identity.chunkCount, Literal(state.1).value);
  }
}
