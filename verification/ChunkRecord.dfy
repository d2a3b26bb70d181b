/**
 The chunk record of `transfer.rs`: index, inclusion proof and ciphertext in one RTP-CBOR
 map. The decoder enters an array for every proof step and leaves once, after the last, so
 its depth limit is also a limit on the length of a proof.
 */
module ChunkRecord {
  import opened Octets
  import opened Cbor
  import opened CborStreams
  import opened Merkle
  import opened PowersOfTwo

  datatype Record = Record(index: U64, proof: seq<ProofStep>, ciphertext: Bytes)

  datatype RecordError = BadRecord | ProofTooDeep | BadStep | BadDirection

  const MAX_PROOF_STEPS := 64

  /** The longest proof whose record decodes: 16 levels less the map and the proof array. */
  const DECODABLE_STEPS := MAX_DEPTH - 2

  ghost predicate Encodable(r: Record) {
    |r.proof| < U64_LIMIT && |r.ciphertext| < U64_LIMIT
  }

  function PutSteps(proof: seq<ProofStep>, tail: Bytes): Bytes {
    if proof == [] then tail
    else PutStep(proof[0], PutSteps(proof[1..], tail))
  }

  function PutStep(step: ProofStep, tail: Bytes): Bytes {
    PutArray(2, PutUint(if step.direction == Left then 0 else 1, PutBytes(step.hash, tail)))
  }

  function Encode(r: Record): Bytes
    requires Encodable(r)
  {
    PutMap(3, PutUint(0, PutUint(r.index,
      PutUint(1, PutArray(|r.proof|, PutSteps(r.proof,
        PutUint(2, PutBytes(r.ciphertext, []))))))))
  }

  /** `encode_chunk_record`: one loop over the proof. */
  method EncodeRecord(r: Record) returns (bytes: Bytes)
    requires Encodable(r)
    ensures bytes == Encode(r)
  {
    hide PutHead, PutUint, PutBytes, PutArray, PutMap, PutStep;
    var w := new Writer();
    ghost var last := PutUint(2, PutBytes(r.ciphertext, []));
    ghost var steps := PutSteps(r.proof, last);
    ghost var second := PutUint(1, PutArray(|r.proof|, steps));
    assert w.out + Encode(r) == Encode(r);
    w.Map(3, PutUint(0, PutUint(r.index, second)));
    w.Uint(0, PutUint(r.index, second));
    w.Uint(r.index, second);
    w.Uint(1, PutArray(|r.proof|, steps));
    w.Array(|r.proof|, steps);
    assert r.proof[0..] == r.proof;
    for i := 0 to |r.proof|
      invariant w.out + PutSteps(r.proof[i..], last) == Encode(r)
    {
      assert r.proof[i..][1..] == r.proof[i + 1..];
      WriteStep(w, r.proof[i], PutSteps(r.proof[i + 1..], last));
    }
    w.Uint(2, PutBytes(r.ciphertext, []));
    w.Blob(r.ciphertext, []);
    assert w.out + [] == w.out;
    return w.out;
  }

  method WriteStep(w: Writer, step: ProofStep, ghost tail: Bytes)
    modifies w
    ensures w.out + tail == old(w.out) + PutStep(step, tail)
  {
    hide PutHead, PutUint, PutBytes, PutArray;
    var d := if step.direction == Left then 0 else 1;
    w.Array(2, PutUint(d, PutBytes(step.hash, tail)));
    w.Uint(d, PutBytes(step.hash, tail));
    w.Blob(step.hash, tail);
  }

  function ReadStep(c: Cursor): Result<(ProofStep, Cursor), RecordError> {
    var (fields, c1) :- OrElse(c.Array(), BadRecord);
    if fields != 2 then Err(BadStep)
    else
      var (d, c2) :- OrElse(c1.Uint(), BadRecord);
      if d > 1 then Err(BadDirection)
      else
        var (hash, c3) :- OrElse(c2.BlobOf(HASH_LEN), BadRecord);
        Ok((ProofStep(if d == 0 then Left else Right, hash), c3))
  }

  function ReadSteps(n: nat, c: Cursor): Result<(seq<ProofStep>, Cursor), RecordError> {
    if n == 0 then Ok(([], c))
    else
      var (step, c1) :- ReadStep(c);
      var (rest, c2) :- ReadSteps(n - 1, c1);
      Ok(([step] + rest, c2))
  }

  /** The map, its index, and the key of the proof. */
  function ReadFront(c: Cursor): Result<(U64, MapReader), RecordError> {
    var m0 :- OrElse(c.Map(), BadRecord);
    var (index, m1) :- OrElse(m0.KeyUint(0), BadRecord);
    var m2 :- OrElse(m1.Key(1), BadRecord);
    Ok((index, m2))
  }

  function ReadBody(index: U64, m: MapReader): Result<Record, RecordError> {
    var (n, c0) :- OrElse(m.reader.Array(), BadRecord);
    if n > MAX_PROOF_STEPS then Err(ProofTooDeep)
    else
      var (proof, c1) :- ReadSteps(n, c0);
      var ciphertext :- ReadRest(m.(reader := c1.Leave()));
      Ok(Record(index, proof, ciphertext))
  }

  /** `decode_chunk_record`. */
  function Decode(bytes: Bytes): Result<Record, RecordError> {
    var (index, m) :- ReadFront(Cursor(bytes, 0));
    ReadBody(index, m)
  }

  /** What follows the proof: the ciphertext, the end of the map and the end of the input. */
  function ReadRest(m: MapReader): Result<Bytes, RecordError> {
    var (ciphertext, m1) :- OrElse(m.KeyBlob(2), BadRecord);
    var c :- OrElse(m1.Done(), BadRecord);
    var _ :- OrElse(c.Finish(), BadRecord);
    Ok(ciphertext)
  }

  /** The decoder as it runs, on a mutable reader. */
  method DecodeRecord(bytes: Bytes) returns (r: Result<Record, RecordError>)
    ensures r == Decode(bytes)
  {
    hide PutHead, ReadBody, Cursor.Map, Cursor.Uint, MapReader.Key;
    var reader := new Reader(bytes);
    var entries := reader.Map();
    if entries.Err? { return Err(BadRecord); }
    var m := new MapStream(reader, entries.value);
    var k0 := m.Key(0);
    if k0.Err? { return Err(BadRecord); }
    var index := reader.Uint();
    if index.Err? { return Err(BadRecord); }
    var k1 := m.Key(1);
    if k1.Err? { return Err(BadRecord); }
    r := ReadBodyFrom(m, index.value);
  }

  method ReadBodyFrom(m: MapStream, index: U64) returns (r: Result<Record, RecordError>)
    requires m.Valid()
    modifies m, m.reader
    ensures r == ReadBody(index, old(m.View()))
  {
    hide PutHead, ReadSteps, ReadRest, Cursor.Array;
    var n := m.reader.Array();
    if n.Err? { return Err(BadRecord); }
    if n.value > MAX_PROOF_STEPS { return Err(ProofTooDeep); }
    var proof := ReadStepsFrom(m.reader, n.value);
    if proof.Err? { return Err(proof.error); }
    m.reader.Leave();
    var ciphertext := ReadRestFrom(m);
    if ciphertext.Err? { return Err(ciphertext.error); }
    return Ok(Record(index, proof.value, ciphertext.value));
  }

  method ReadRestFrom(m: MapStream) returns (r: Result<Bytes, RecordError>)
    requires m.Valid()
    modifies m, m.reader
    ensures r == ReadRest(old(m.View()))
  {
    hide PutHead, Cursor.Blob, MapReader.NextKey, MapReader.Key;
    var k2 := m.Key(2);
    if k2.Err? { return Err(BadRecord); }
    var ciphertext := m.reader.Blob();
    if ciphertext.Err? { return Err(BadRecord); }
    var end := m.NextKey();
    if end.Err? || end.value.Some? { return Err(BadRecord); }
    var done := m.reader.Finish();
    if done.Err? { return Err(BadRecord); }
    return Ok(ciphertext.value);
  }

  /** The loop over the proof steps: it enters an array per step and leaves none. */
  method ReadStepsFrom(reader: Reader, n: nat) returns (r: Result<seq<ProofStep>, RecordError>)
    requires reader.Valid()
    modifies reader
    ensures reader.Valid()
    ensures match ReadSteps(n, old(reader.View()))
            case Ok((proof, c)) => r == Ok(proof) && reader.View() == c
            case Err(e) => r == Err(e)
  {
    hide ReadStep;
    var proof: seq<ProofStep> := [];
    OnwardNone(ReadSteps(n, reader.View()));
    for i := 0 to n
      invariant reader.Valid()
      invariant ReadSteps(n, old(reader.View())) == Onward(proof, ReadSteps(n - i, reader.View()))
    {
      var step := ReadStepFrom(reader);
      if step.Err? { return Err(step.error); }
      OnwardTwice(proof, step.value, ReadSteps(n - i - 1, reader.View()));
      proof := proof + [step.value];
    }
    assert proof + [] == proof;
    return Ok(proof);
  }

  method ReadStepFrom(reader: Reader) returns (r: Result<ProofStep, RecordError>)
    requires reader.Valid()
    modifies reader
    ensures reader.Valid()
    ensures match ReadStep(old(reader.View()))
            case Ok((step, c)) => r == Ok(step) && reader.View() == c
            case Err(e) => r == Err(e)
  {
    var fields := reader.Array();
    if fields.Err? { return Err(BadRecord); }
    if fields.value != 2 { return Err(BadStep); }
    var d := reader.Uint();
    if d.Err? { return Err(BadRecord); }
    if d.value > 1 { return Err(BadDirection); }
    var hash := reader.BlobOf(HASH_LEN);
    if hash.Err? { return Err(BadRecord); }
    return Ok(ProofStep(if d.value == 0 then Left else Right, hash.value));
  }

  /** Steps already read, put before the steps still to come. */
  function Onward(done: seq<ProofStep>, r: Result<(seq<ProofStep>, Cursor), RecordError>)
    : Result<(seq<ProofStep>, Cursor), RecordError>
  {
    match r
    case Ok((steps, c)) => Ok((done + steps, c))
    case Err(e) => Err(e)
  }

  lemma OnwardNone(r: Result<(seq<ProofStep>, Cursor), RecordError>)
    ensures Onward([], r) == r
  {
    if r.Ok? {
      assert [] + r.value.0 == r.value.0;
    }
  }

  lemma OnwardTwice(done: seq<ProofStep>, step: ProofStep, r: Result<(seq<ProofStep>, Cursor), RecordError>)
    ensures Onward(done, Onward([step], r)) == Onward(done + [step], r)
  {
    if r.Ok? {
      assert done + ([step] + r.value.0) == done + [step] + r.value.0;
    }
  }

  // --- Accepted bytes are the canonical encoding of the result ---

  lemma StepCanonical(c: Cursor)
    requires ReadStep(c).Ok?
    ensures c.buf == PutStep(ReadStep(c).value.0, ReadStep(c).value.1.buf)
    ensures ReadStep(c).value.1.depth == c.depth + 1 <= MAX_DEPTH
  {
    hide PutHead, Cursor.Array, Cursor.Uint, Cursor.BlobOf;
  }

  /** The reader ends one level deeper for each step. */
  lemma {:induction false} StepsCanonical(n: nat, c: Cursor)
    requires ReadSteps(n, c).Ok?
    ensures |ReadSteps(n, c).value.0| == n && c.buf == PutSteps(ReadSteps(n, c).value.0, ReadSteps(n, c).value.1.buf)
    ensures ReadSteps(n, c).value.1.depth == c.depth + n && (n > 0 ==> c.depth + n <= MAX_DEPTH)
  {
    hide ReadStep, PutStep;
    if n > 0 {
      StepCanonical(c);
      var (step, c1) := ReadStep(c).value;
      StepsCanonical(n - 1, c1);
      var rest := ReadSteps(n - 1, c1).value.0;
      assert ([step] + rest)[1..] == rest;
    }
  }

  /** An accepted record re-encodes to the bytes it came from, and its proof has at most 14 steps. */
  lemma RecordCanonical(bytes: Bytes)
    requires Decode(bytes).Ok?
    ensures Encodable(Decode(bytes).value)
    ensures bytes == Encode(Decode(bytes).value)
    ensures |Decode(bytes).value.proof| <= DECODABLE_STEPS
  {
    hide PutHead, ReadSteps, PutSteps, Cursor.Array, Cursor.Map, MapReader.Key, MapReader.KeyUint, ReadRest;
    var m0 := Cursor(bytes, 0).Map().value;
    var m2 := m0.KeyUint(0).value.1.Key(1).value;
    var (n, c0) := m2.reader.Array().value;
    StepsCanonical(n, c0);
    RestCanonical(m2.(reader := ReadSteps(n, c0).value.1.Leave()));
  }

  lemma RestCanonical(m: MapReader)
    requires ReadRest(m).Ok?
    ensures |ReadRest(m).value| < U64_LIMIT
    ensures m.remaining == 1 && m.reader.buf == PutUint(2, PutBytes(ReadRest(m).value, []))
  {
    hide PutHead, MapReader.KeyBlob, MapReader.Done;
  }

  // --- The decoder inverts the encoder exactly up to its depth limit ---

  lemma StepReads(step: ProofStep, tail: Bytes, d: nat)
    requires d <= MAX_DEPTH
    ensures ReadStep(Cursor(PutStep(step, tail), d)) == if d < MAX_DEPTH then Ok((step, Cursor(tail, d + 1)))
            else Err(BadRecord)
  {
    hide PutHead;
    if d < MAX_DEPTH {
      ReadsBack();
    } else {
      HeadReads(MAJOR_ARRAY, 2, PutUint(if step.direction == Left then 0 else 1, PutBytes(step.hash, tail)));
    }
  }

  lemma {:induction false} StepsRead(proof: seq<ProofStep>, tail: Bytes, d: nat)
    requires d <= MAX_DEPTH
    ensures ReadSteps(|proof|, Cursor(PutSteps(proof, tail), d)) ==
            if d + |proof| <= MAX_DEPTH then Ok((proof, Cursor(tail, d + |proof|))) else Err(BadRecord)
    decreases |proof|
  {
    hide PutStep, ReadStep;
    if proof != [] {
      StepReads(proof[0], PutSteps(proof[1..], tail), d);
      if d < MAX_DEPTH {
        StepsRead(proof[1..], tail, d + 1);
        assert [proof[0]] + proof[1..] == proof;
      }
    }
  }

  /** Every record reads back if and only if its proof has at most 14 steps, although 64 are intended. */
  lemma RecordReads(r: Record)
    requires Encodable(r)
    ensures Decode(Encode(r)) ==
            if |r.proof| <= DECODABLE_STEPS then Ok(r)
            else if |r.proof| <= MAX_PROOF_STEPS then Err(BadRecord)
            else Err(ProofTooDeep)
  {
    hide PutHead, PutUint, PutBytes, PutArray, PutMap, PutSteps, ReadSteps, Cursor.Uint, Cursor.Blob, Cursor.Array,
         Cursor.Map;
    ReadsBack();
    StepsRead(r.proof, PutUint(2, PutBytes(r.ciphertext, [])), 2);
  }

  lemma {:induction false} ProofLength(leaves: seq<Hash>, index: nat)
    requires index < |leaves|
    ensures |ProofFor(leaves, index)| == |Directions(|leaves|, index)|
  {
    BuiltProofProves(leaves, index);
    assert |DirectionsOf(ProofFor(leaves, index))| == |ProofFor(leaves, index)|;
  }

  const DECODABLE_LEAVES := 16384

  lemma Pow2Of14()
    ensures Pow2(14) == DECODABLE_LEAVES
    ensures BitLength(DECODABLE_LEAVES - 1) == 14
    ensures BitLength(DECODABLE_LEAVES) == 15
  {
    assert Pow2(6) == 64;
    Pow2Shift8(6);
    BitLengthOfPow2(14);
    assert BitLength(1024) == 4 + BitLength(64) == 11;
    assert BitLength(DECODABLE_LEAVES) == 4 + BitLength(1024);
  }

  /** Every index of a tree has a decodable proof exactly when the tree has at most 16384 leaves. */
  lemma TreeDecodes(n: nat)
    requires n > 0
    ensures (forall i :: 0 <= i < n ==> |Directions(n, i)| <= DECODABLE_STEPS) <==> n <= DECODABLE_LEAVES
  {
    hide BitLength, Pow2, Directions;
    Pow2Of14();
    if n <= DECODABLE_LEAVES {
      BitLengthMonotone(n - 1, DECODABLE_LEAVES - 1);
      forall i | 0 <= i < n ensures |Directions(n, i)| <= DECODABLE_STEPS {
        DirectionsDepth(n, i);
      }
    } else {
      BitLengthMonotone(DECODABLE_LEAVES, n - 1);
      PathEnd(n, 0);
      SplitBounds(n);
    }
  }
}
