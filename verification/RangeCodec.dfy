/**
 The wire form of a range request (`scheduler.rs`). Unlike the chunk record's decoder, this
 one leaves every pair it enters, so the number of ranges is not bounded by the reader's depth.
 */
module RangeCodec {
  import opened Octets
  import opened Cbor
  import opened Rle
  import opened Scheduler

  /** A request whose fields have their wire widths. */
  ghost predicate Encodable(r: RangeRequest) {
    && |r.transferId| == ID_LEN && |r.objectId| == ID_LEN
    && |r.ranges| < U64_LIMIT
    && Words(r.ranges)
  }

  ghost predicate Words(ranges: seq<Range>) {
    forall k :: 0 <= k < |ranges| ==> ranges[k].0 < U64_LIMIT && ranges[k].1 < U64_LIMIT
  }

  function PutRanges(ranges: seq<Range>, tail: Bytes): Bytes
    requires Words(ranges)
  {
    if ranges == [] then tail
    else PutArray(2, PutUint(ranges[0].0, PutUint(ranges[0].1, PutRanges(ranges[1..], tail))))
  }

  function Last(r: RangeRequest): Bytes {
    PutUint(4, PutUint(r.maxBytes, PutUint(5, PutUint(r.order, PutUint(6, PutUint(r.generation, []))))))
  }

  function Encode(r: RangeRequest): Bytes
    requires Encodable(r)
  {
    PutMap(7, PutUint(0, PutBytes(r.transferId, PutUint(1, PutBytes(r.objectId, PutUint(2, PutUint(r.priority,
      PutUint(3, PutArray(|r.ranges|, PutRanges(r.ranges, Last(r)))))))))))
  }

  function ReadRange(c: Cursor): Result<(Range, Cursor), SchedulerError> {
    var (two, c1) :- OrElse(c.Array(), Encoding);
    if two != 2 then Err(Encoding)
    else
      var (start, c2) :- OrElse(c1.Uint(), Encoding);
      var (end, c3) :- OrElse(c2.Uint(), Encoding);
      Ok(((start, end), c3.Leave()))
  }

  function ReadRanges(n: nat, c: Cursor): Result<(seq<Range>, Cursor), SchedulerError> {
    if n == 0 then Ok(([], c))
    else
      var (range, c1) :- ReadRange(c);
      var (rest, c2) :- ReadRanges(n - 1, c1);
      Ok(([range] + rest, c2))
  }

  /** The fields after the ranges, to the end of the input. */
  function ReadLast(m: MapReader): Result<(U64, U64, U64), SchedulerError> {
    var (maxBytes, m1) :- OrElse(m.KeyUint(4), Encoding);
    var (order, m2) :- OrElse(m1.KeyUint(5), Encoding);
    var (generation, m3) :- OrElse(m2.KeyUint(6), Encoding);
    var c :- OrElse(m3.Done(), Encoding);
    var _ :- OrElse(c.Finish(), Encoding);
    Ok((maxBytes, order, generation))
  }

  /** `RangeRequest::decode`, with its final validation. */
  function Decode(bytes: Bytes, chunkCount: nat): Result<RangeRequest, SchedulerError> {
    var c0 :- OrElse(Control(bytes), Encoding);
    var m0 :- OrElse(c0.Map(), Encoding);
    var (transferId, m1) :- OrElse(m0.KeyBlobOf(0, ID_LEN), Encoding);
    var (objectId, m2) :- OrElse(m1.KeyBlobOf(1, ID_LEN), Encoding);
    var (priority, m3) :- OrElse(m2.KeyUint(2), Encoding);
    var m4 :- OrElse(m3.Key(3), Encoding);
    var (n, c1) :- OrElse(m4.reader.Array(), Encoding);
    if n > MAX_RANGES_PER_REQUEST then Err(TooManyRanges)
    else
      var (ranges, c2) :- ReadRanges(n, c1);
      var (maxBytes, order, generation) :- ReadLast(m4.(reader := c2.Leave()));
      var _ :- Verdict(ranges, chunkCount);
      Ok(RangeRequest(transferId, objectId, priority, ranges, maxBytes, order, generation))
  }

  // --- Accepted bytes re-encode ---

  lemma RangeCanonical(c: Cursor)
    requires ReadRange(c).Ok?
    ensures var ((start, end), c') := ReadRange(c).value;
            && start < U64_LIMIT && end < U64_LIMIT && c'.depth == c.depth
            && c.buf == PutArray(2, PutUint(start, PutUint(end, c'.buf)))
  {
    hide PutHead, Cursor.Array, Cursor.Uint;
  }

  lemma {:induction false} RangesCanonical(n: nat, c: Cursor)
    requires ReadRanges(n, c).Ok?
    ensures var (ranges, c') := ReadRanges(n, c).value;
            |ranges| == n && Words(ranges) && c.buf == PutRanges(ranges, c'.buf) && c'.depth == c.depth
  {
    hide PutUint, PutArray, ReadRange;
    if n > 0 {
      RangeCanonical(c);
      var (range, c1) := ReadRange(c).value;
      RangesCanonical(n - 1, c1);
      var rest := ReadRanges(n - 1, c1).value.0;
      assert ([range] + rest)[1..] == rest;
    }
  }

  lemma LastCanonical(m: MapReader, r: RangeRequest)
    requires ReadLast(m).Ok? && ReadLast(m).value.0 == r.maxBytes && ReadLast(m).value.1 == r.order &&
             ReadLast(m).value.2 == r.generation
    ensures m.remaining == 3 && m.reader.buf == Last(r)
  {
    hide PutHead, MapReader.KeyUint, MapReader.Done;
  }

  /** A request that decodes is valid for the object and re-encodes to the same bytes. */
  lemma RequestCanonical(bytes: Bytes, chunkCount: nat)
    requires Decode(bytes, chunkCount).Ok?
    ensures var r := Decode(bytes, chunkCount).value;
            Encodable(r) && bytes == Encode(r) && ValidRanges(r.ranges, chunkCount)
  {
    hide PutHead, PutRanges, ReadRanges, ReadLast, Last, Cursor.Array, Cursor.Map, MapReader.Key, MapReader.KeyUint,
         MapReader.KeyBlobOf, Verdict;
    VerdictIs(Decode(bytes, chunkCount).value.ranges, chunkCount);
    var m0 := Cursor(bytes, 0).Map().value;
    var m4 := m0.KeyBlobOf(0, ID_LEN).value.1.KeyBlobOf(1, ID_LEN).value.1.KeyUint(2).value.1.Key(3).value;
    var (n, c1) := m4.reader.Array().value;
    RangesCanonical(n, c1);
    LastCanonical(m4.(reader := ReadRanges(n, c1).value.1.Leave()), Decode(bytes, chunkCount).value);
  }

  // --- Valid requests read back ---

  lemma RangeReads(start: U64, end: U64, tail: Bytes, d: nat)
    requires d < MAX_DEPTH
    ensures ReadRange(Cursor(PutArray(2, PutUint(start, PutUint(end, tail))), d)) == Ok(((start, end), Cursor(tail, d)))
  {
    hide PutHead, PutUint, PutArray, Cursor.Uint, Cursor.Array;
    ReadsBack();
  }

  lemma {:induction false} RangesRead(ranges: seq<Range>, tail: Bytes, d: nat)
    requires Words(ranges) && d < MAX_DEPTH
    ensures ReadRanges(|ranges|, Cursor(PutRanges(ranges, tail), d)) == Ok((ranges, Cursor(tail, d)))
    decreases |ranges|
  {
    hide ReadRange, PutUint, PutArray;
    if ranges != [] {
      RangeReads(ranges[0].0, ranges[0].1, PutRanges(ranges[1..], tail), d);
      RangesRead(ranges[1..], tail, d);
      assert [ranges[0]] + ranges[1..] == ranges;
    }
  }

  lemma HeaderShort(major: Major, value: U64)
    ensures 1 <= |Header(major, value)| <= 9
  {
  }

  lemma {:induction false} RangesShort(ranges: seq<Range>, tail: Bytes)
    requires Words(ranges)
    ensures |PutRanges(ranges, tail)| <= 27 * |ranges| + |tail|
    decreases |ranges|
  {
    hide Header;
    if ranges != [] {
      HeaderShort(MAJOR_ARRAY, 2);
      HeaderShort(MAJOR_UINT, ranges[0].0);
      HeaderShort(MAJOR_UINT, ranges[0].1);
      RangesShort(ranges[1..], tail);
    }
  }

  lemma LastShort(r: RangeRequest)
    ensures |Last(r)| <= 54
  {
    hide Header;
    HeaderShort(MAJOR_UINT, 4);
    HeaderShort(MAJOR_UINT, r.maxBytes);
    HeaderShort(MAJOR_UINT, 5);
    HeaderShort(MAJOR_UINT, r.order);
    HeaderShort(MAJOR_UINT, 6);
    HeaderShort(MAJOR_UINT, r.generation);
  }

  /** Every request of at most 1024 ranges fits a control object. */
  lemma RequestShort(r: RangeRequest)
    requires Encodable(r) && |r.ranges| <= MAX_RANGES_PER_REQUEST
    ensures |Encode(r)| <= MAX_CONTROL_SIZE
  {
    hide Header, PutRanges, Last;
    LastShort(r);
    RangesShort(r.ranges, Last(r));
    HeaderShort(MAJOR_MAP, 7);
    HeaderShort(MAJOR_UINT, 0);
    HeaderShort(MAJOR_BYTES, ID_LEN);
    HeaderShort(MAJOR_UINT, 1);
    HeaderShort(MAJOR_UINT, 2);
    HeaderShort(MAJOR_UINT, r.priority);
    HeaderShort(MAJOR_UINT, 3);
    HeaderShort(MAJOR_ARRAY, |r.ranges|);
  }

  lemma LastReads(r: RangeRequest, d: nat)
    ensures ReadLast(MapReader(Cursor(Last(r), d), 3, Some(3))) == Ok((r.maxBytes, r.order, r.generation))
  {
    hide PutHead, PutUint, Cursor.Uint;
    ReadsBack();
  }

  lemma FewReads(r: RangeRequest, chunkCount: nat)
    requires Encodable(r) && |r.ranges| <= MAX_RANGES_PER_REQUEST
    ensures Decode(Encode(r), chunkCount) ==
            match Verdict(r.ranges, chunkCount)
            case Ok(_) => Ok(r)
            case Err(e) => Err(e)
  {
    hide PutHead, PutUint, PutBytes, PutArray, PutMap, PutRanges, ReadRanges, ReadLast, Last, Cursor.Uint, Cursor.Blob,
         Cursor.Array, Cursor.Map, ValidRanges, Verdict;
    RequestShort(r);
    ReadsBack();
    RangesRead(r.ranges, Last(r), 2);
    LastReads(r, 1);
  }

  lemma ManyRefused(r: RangeRequest, chunkCount: nat)
    requires Encodable(r) && |r.ranges| > MAX_RANGES_PER_REQUEST
    ensures Decode(Encode(r), chunkCount) ==
            if |Encode(r)| > MAX_CONTROL_SIZE then Err(Encoding) else Err(TooManyRanges)
  {
    hide PutHead, PutUint, PutBytes, PutArray, PutMap, PutRanges, ReadRanges, ReadLast, Last, Cursor.Uint, Cursor.Blob,
         Cursor.Array, Cursor.Map, Verdict;
    ReadsBack();
  }

  /**
   A request reads back for exactly the objects it is valid for, and else gives its first fault.
   More than 1024 ranges are refused as such, unless they do not even fit a control object.
   */
  lemma RequestReads(r: RangeRequest, chunkCount: nat)
    requires Encodable(r)
    ensures Decode(Encode(r), chunkCount) ==
            if |Encode(r)| > MAX_CONTROL_SIZE then Err(Encoding)
            else match Verdict(r.ranges, chunkCount)
                 case Ok(_) => Ok(r)
                 case Err(e) => Err(e)
    ensures Decode(Encode(r), chunkCount).Ok? <==> ValidRanges(r.ranges, chunkCount)
  {
    hide Encode, Decode, ValidRanges, Judged;
    VerdictIs(r.ranges, chunkCount);
    if |r.ranges| <= MAX_RANGES_PER_REQUEST {
      RequestShort(r);
      FewReads(r, chunkCount);
    } else {
      ManyRefused(r, chunkCount);
    }
  }
}
