/**
 RTP-CBOR (`cbor.rs`): the strict deterministic subset of sections 3 and 4.2.1 of RFC 8949.

 A `Put` function prepends one item to a tail, so an encoding is a nest of `Put`s that
 ends in the bytes that follow it. A `Cursor` is what remains to be read, with the
 nesting depth. Every reading function states that what it read is the canonical
 encoding of what it returned; the lemmas of the last section state the converse.
 */
module Cbor {
  import opened Octets

  const MAX_DEPTH := 16
  const MAX_CONTROL_SIZE := 1024 * 1024

  const MAJOR_UINT := 0
  const MAJOR_BYTES := 2
  const MAJOR_TEXT := 3
  const MAJOR_ARRAY := 4
  const MAJOR_MAP := 5
  const MAJOR_SIMPLE := 7
  const SIMPLE_FALSE := 20
  const SIMPLE_TRUE := 21

  type Major = m: int | 0 <= m < 8

  datatype CborError =
    | Truncated
    | NonCanonical
    | ForbiddenType
    | DepthExceeded
    | SizeExceeded
    | KeyOrder
    | UnexpectedType
    | TrailingBytes
    | MissingField(key: U64)
    | InvalidValue
    | InvalidUtf8

  /** Reports any fault of the encoding as one error of the reader's own. */
  function OrElse<T, E>(r: Result<T, CborError>, error: E): (o: Result<T, E>)
    ensures o.Ok? == r.Ok?
    ensures r.Ok? ==> o.value == r.value
    ensures r.Err? ==> o.error == error
  {
    match r
    case Ok(v) => Ok(v)
    case Err(_) => Err(error)
  }

  // --- Encoder ---

  /** The five-bit field of a header: the argument itself, or how many bytes of it follow. */
  function Info(value: U64): Field {
    if value < 24 then value
    else if value < U8_LIMIT then 24
    else if value < U16_LIMIT then 25
    else if value < U32_LIMIT then 26
    else 27
  }

  /** The bytes of the argument that follow the first byte, as few as hold it. */
  function Argument(value: U64): Bytes {
    if value < 24 then []
    else if value < U8_LIMIT then BigEndian(value, 1)
    else if value < U16_LIMIT then BigEndian(value, 2)
    else if value < U32_LIMIT then BigEndian(value, 4)
    else BigEndian(value, 8)
  }

  /** The shortest header for a major type and an argument. */
  function Header(major: Major, value: U64): Bytes {
    [Initial(major, Info(value))] + Argument(value)
  }

  type Field = i: int | 0 <= i < 32

  /** A header's first byte: three bits of major type and five of info. */
  function Initial(major: Major, info: Field): Octet {
    Lit(major * 32 + info)
  }

  function MajorOf(first: Byte): Major {
    first / 32
  }

  function InfoOf(first: Byte): Field {
    first % 32
  }

  lemma InitialSplits(major: Major, info: Field, first: Byte)
    ensures MajorOf(Initial(major, info).b) == major && InfoOf(Initial(major, info).b) == info
    ensures Initial(MajorOf(first), InfoOf(first)) == Lit(first)
  {
  }

  function PutHead(major: Major, value: U64, tail: Bytes): Bytes {
    Header(major, value) + tail
  }

  function PutUint(value: U64, tail: Bytes): Bytes {
    PutHead(MAJOR_UINT, value, tail)
  }

  function PutBytes(value: Bytes, tail: Bytes): Bytes
    requires |value| < U64_LIMIT
  {
    PutHead(MAJOR_BYTES, |value|, value + tail)
  }

  function PutBool(value: bool, tail: Bytes): Bytes {
    PutHead(MAJOR_SIMPLE, if value then SIMPLE_TRUE else SIMPLE_FALSE, tail)
  }

  function PutArray(len: U64, tail: Bytes): Bytes {
    PutHead(MAJOR_ARRAY, len, tail)
  }

  function PutMap(len: U64, tail: Bytes): Bytes {
    PutHead(MAJOR_MAP, len, tail)
  }

  // --- Decoder ---

  function Take(buf: Bytes, n: nat): (r: Result<(Bytes, Bytes), CborError>)
    ensures r.Ok? <==> n <= |buf|
    ensures r.Ok? ==> buf == r.value.0 + r.value.1 && |r.value.0| == n
  {
    if |buf| < n then Err(Truncated) else Ok((buf[..n], buf[n..]))
  }

  /** A multi-byte argument, refused when a shorter header would have held it. */
  function Wide(buf: Bytes, n: nat, floor: U64): (r: Result<(U64, Bytes), CborError>)
    requires n in {1, 2, 4, 8}
    ensures r.Ok? ==> floor <= r.value.0 < Pow256(n) && buf == BigEndian(r.value.0, n) + r.value.1
  {
    var (raw, rest) :- Take(buf, n);
    var v := FromBigEndian(raw);
    if v.None? then Err(ForbiddenType)
    else
      Pow256Values();
      BigEndianCanonical(raw);
      if v.value < floor then Err(NonCanonical) else Ok((v.value, rest))
  }

  function ReadArgument(info: Field, buf: Bytes): (r: Result<(U64, Bytes), CborError>)
    ensures r.Ok? ==> Info(r.value.0) == info && buf == Argument(r.value.0) + r.value.1
  {
    Pow256Values();
    if info < 24 then Ok((info, buf))
    else if info == 24 then Wide(buf, 1, 24)
    else if info == 25 then Wide(buf, 2, U8_LIMIT)
    else if info == 26 then Wide(buf, 4, U16_LIMIT)
    else if info == 27 then Wide(buf, 8, U32_LIMIT)
    else Err(ForbiddenType)
  }

  function HeadFrom(first: Octet, rest: Bytes): (r: Result<(Major, U64, Bytes), CborError>)
    ensures r.Ok? ==> [first] + rest == PutHead(r.value.0, r.value.1, r.value.2)
    ensures r.Ok? && r.value.0 == MAJOR_SIMPLE ==> r.value.1 in {SIMPLE_FALSE, SIMPLE_TRUE}
  {
    if first.Derived? then Err(ForbiddenType)
    else
      var major, info := MajorOf(first.b), InfoOf(first.b);
      InitialSplits(major, info, first.b);
      var (value, tail) :- ReadArgument(info, rest);
      if major == MAJOR_SIMPLE && value != SIMPLE_FALSE && value != SIMPLE_TRUE then Err(ForbiddenType)
      else Ok((major, value, tail))
  }

  /** `Reader::head`: the canonical header of its result, and nothing else, stands at the front. */
  function Head(buf: Bytes): (r: Result<(Major, U64, Bytes), CborError>)
    ensures r.Ok? ==> buf == PutHead(r.value.0, r.value.1, r.value.2)
    ensures r.Ok? && r.value.0 == MAJOR_SIMPLE ==> r.value.1 in {SIMPLE_FALSE, SIMPLE_TRUE}
  {
    var (first, rest) :- Take(buf, 1);
    HeadFrom(first[0], rest)
  }

  /** What remains to be read, and how deep the reader is. */
  datatype Cursor = Cursor(buf: Bytes, depth: nat) {

    /** A header of one required major type. */
    function Item(major: Major): (r: Result<(U64, Cursor), CborError>)
      ensures r.Ok? ==> buf == PutHead(major, r.value.0, r.value.1.buf) && r.value.1.depth == depth
      ensures r.Ok? && major == MAJOR_SIMPLE ==> r.value.0 in {SIMPLE_FALSE, SIMPLE_TRUE}
    {
      var (found, value, rest) :- Head(buf);
      if found != major then Err(UnexpectedType) else Ok((value, Cursor(rest, depth)))
    }

    function Uint(): (r: Result<(U64, Cursor), CborError>)
      ensures r.Ok? ==> buf == PutUint(r.value.0, r.value.1.buf) && r.value.1.depth == depth
    {
      Item(MAJOR_UINT)
    }

    function Bool(): (r: Result<(bool, Cursor), CborError>)
      ensures r.Ok? ==> buf == PutBool(r.value.0, r.value.1.buf) && r.value.1.depth == depth
    {
      var (v, c) :- Item(MAJOR_SIMPLE);
      Ok((v == SIMPLE_TRUE, c))
    }

    function Blob(): (r: Result<(Bytes, Cursor), CborError>)
      ensures r.Ok? ==> |r.value.0| < U64_LIMIT
      ensures r.Ok? ==> buf == PutBytes(r.value.0, r.value.1.buf) && r.value.1.depth == depth
    {
      var (len, c) :- Item(MAJOR_BYTES);
      var (raw, rest) :- Take(c.buf, len);
      Ok((raw, Cursor(rest, depth)))
    }

    /** `bytes_exact`: a byte string of one required length. */
    function BlobOf(n: nat): (r: Result<(Bytes, Cursor), CborError>)
      ensures r.Ok? ==> |r.value.0| == n < U64_LIMIT
      ensures r.Ok? ==> buf == PutBytes(r.value.0, r.value.1.buf) && r.value.1.depth == depth
    {
      var (raw, c) :- Blob();
      if |raw| != n then Err(InvalidValue) else Ok((raw, c))
    }

    /** Arrays and maps count one level of nesting until the reader leaves them. */
    function Enter(): (r: Result<Cursor, CborError>)
      ensures r.Ok? <==> depth < MAX_DEPTH
      ensures r.Ok? ==> r.value == Cursor(buf, depth + 1)
    {
      if depth + 1 > MAX_DEPTH then Err(DepthExceeded) else Ok(Cursor(buf, depth + 1))
    }

    function Leave(): (c: Cursor)
      ensures c.buf == buf && (depth > 0 ==> c.depth == depth - 1)
    {
      Cursor(buf, if depth > 0 then depth - 1 else 0)
    }

    function Array(): (r: Result<(U64, Cursor), CborError>)
      ensures r.Ok? ==> buf == PutArray(r.value.0, r.value.1.buf) && r.value.1.depth == depth + 1 <= MAX_DEPTH
    {
      var (len, c) :- Item(MAJOR_ARRAY);
      var inner :- c.Enter();
      Ok((len, inner))
    }

    function Map(): (r: Result<MapReader, CborError>)
      ensures r.Ok? ==> r.value.last == None && r.value.remaining < U64_LIMIT
      ensures r.Ok? ==> buf == PutMap(r.value.remaining, r.value.reader.buf) &&
                        r.value.reader.depth == depth + 1 <= MAX_DEPTH
    {
      var (len, c) :- Item(MAJOR_MAP);
      var inner :- c.Enter();
      Ok(MapReader(inner, len, None))
    }

    function Finish(): (r: Result<(), CborError>)
      ensures r.Ok? <==> buf == []
    {
      if buf == [] then Ok(()) else Err(TrailingBytes)
    }
  }

  /** `Reader::new`: control objects are at most 1 MiB. */
  function Control(buf: Bytes): (r: Result<Cursor, CborError>)
    ensures r.Ok? <==> |buf| <= MAX_CONTROL_SIZE
    ensures r.Ok? ==> r.value == Cursor(buf, 0)
  {
    if |buf| > MAX_CONTROL_SIZE then Err(SizeExceeded) else Ok(Cursor(buf, 0))
  }

  /** A map being read: entries left, and the last key, which keys must exceed. */
  datatype MapReader = MapReader(reader: Cursor, remaining: nat, last: Option<U64>) {

    /** The next key, or none when the map is done, in which case the reader leaves it. */
    function NextKey(): (r: Result<(Option<U64>, MapReader), CborError>)
      ensures r.Ok? && r.value.0.None? ==> remaining == 0 && r.value.1 == this.(reader := reader.Leave())
      ensures r.Ok? && r.value.0.Some? ==>
                && remaining > 0
                && (last.Some? ==> last.value < r.value.0.value)
                && reader.buf == PutUint(r.value.0.value, r.value.1.reader.buf)
                && r.value.1 == MapReader(Cursor(r.value.1.reader.buf, reader.depth), remaining - 1, r.value.0)
    {
      if remaining == 0 then Ok((None, this.(reader := reader.Leave())))
      else
        var (key, c) :- reader.Uint();
        if last.Some? && key <= last.value then Err(KeyOrder)
        else Ok((Some(key), MapReader(c, remaining - 1, Some(key))))
    }

    function Key(key: U64): (r: Result<MapReader, CborError>)
      ensures r.Ok? ==>
                && remaining > 0
                && (last.Some? ==> last.value < key)
                && reader.buf == PutUint(key, r.value.reader.buf)
                && r.value == MapReader(Cursor(r.value.reader.buf, reader.depth), remaining - 1, Some(key))
    {
      var (found, m) :- NextKey();
      if found == Some(key) then Ok(m) else Err(MissingField(key))
    }

    /** The end of the map: an entry that is left over is refused. */
    function Done(): (r: Result<Cursor, CborError>)
      ensures r.Ok? ==> remaining == 0 && r.value == reader.Leave()
    {
      var (key, m) :- NextKey();
      if key.Some? then Err(InvalidValue) else Ok(m.reader)
    }

    function KeyUint(key: U64): (r: Result<(U64, MapReader), CborError>)
      ensures r.Ok? ==> Advances(r.value.1, key) && reader.buf == PutUint(key, PutUint(r.value.0, r.value.1.reader.buf))
    {
      var m :- Key(key);
      var (v, c) :- m.reader.Uint();
      Ok((v, m.(reader := c)))
    }

    function KeyBlob(key: U64): (r: Result<(Bytes, MapReader), CborError>)
      ensures r.Ok? ==> |r.value.0| < U64_LIMIT
      ensures r.Ok? ==> Advances(r.value.1, key)
      ensures r.Ok? ==> reader.buf == PutUint(key, PutBytes(r.value.0, r.value.1.reader.buf))
    {
      var m :- Key(key);
      var (v, c) :- m.reader.Blob();
      Ok((v, m.(reader := c)))
    }

    function KeyBlobOf(key: U64, n: nat): (r: Result<(Bytes, MapReader), CborError>)
      ensures r.Ok? ==> |r.value.0| == n < U64_LIMIT
      ensures r.Ok? ==> Advances(r.value.1, key)
      ensures r.Ok? ==> reader.buf == PutUint(key, PutBytes(r.value.0, r.value.1.reader.buf))
    {
      var m :- Key(key);
      var (v, c) :- m.reader.BlobOf(n);
      Ok((v, m.(reader := c)))
    }

    function KeyBool(key: U64): (r: Result<(bool, MapReader), CborError>)
      ensures r.Ok? ==> Advances(r.value.1, key) && reader.buf == PutUint(key, PutBool(r.value.0, r.value.1.reader.buf))
    {
      var m :- Key(key);
      var (v, c) :- m.reader.Bool();
      Ok((v, m.(reader := c)))
    }

    /** One entry further, at the same depth. */
    ghost predicate Advances(m: MapReader, key: U64) {
      m.remaining == remaining - 1 && m.last == Some(key) && m.reader.depth == reader.depth
    }
  }

  // --- What was written reads back ---

  /** Stated for a byte with the right two fields, which keeps its arithmetic out of the proof. */
  lemma HeadFromReads(major: Major, value: U64, tail: Bytes, first: Byte)
    requires major == MAJOR_SIMPLE ==> value in {SIMPLE_FALSE, SIMPLE_TRUE}
    requires MajorOf(first) == major && InfoOf(first) == Info(value)
    ensures HeadFrom(Lit(first), Argument(value) + tail) == Ok((major, value, tail))
  {
    ArgumentReads(value, tail);
  }

  lemma HeadReads(major: Major, value: U64, tail: Bytes)
    requires major == MAJOR_SIMPLE ==> value in {SIMPLE_FALSE, SIMPLE_TRUE}
    ensures Head(PutHead(major, value, tail)) == Ok((major, value, tail))
  {
    var first := FirstByte(major, Info(value));
    HeadFromReads(major, value, tail, first);
    FrontReads(first, Argument(value) + tail);
    assert PutHead(major, value, tail) == [Lit(first)] + (Argument(value) + tail);
  }

  lemma FirstByte(major: Major, info: Field) returns (b: Byte)
    ensures Initial(major, info) == Lit(b) && MajorOf(b) == major && InfoOf(b) == info
  {
    b := major * 32 + info;
  }

  lemma FrontReads(first: Byte, rest: Bytes)
    ensures Head([Lit(first)] + rest) == HeadFrom(Lit(first), rest)
  {
    assert ([Lit(first)] + rest)[1..] == rest;
  }

  lemma ArgumentReads(value: U64, tail: Bytes)
    ensures ReadArgument(Info(value), Argument(value) + tail) == Ok((value, tail))
  {
    Pow256Values();
    if value < 24 {
      assert Argument(value) + tail == tail;
    } else if value < U8_LIMIT {
      WideReads(value, 1, tail, 24);
    } else if value < U16_LIMIT {
      WideReads(value, 2, tail, U8_LIMIT);
    } else if value < U32_LIMIT {
      WideReads(value, 4, tail, U16_LIMIT);
    } else {
      WideReads(value, 8, tail, U32_LIMIT);
    }
  }

  lemma WideReads(value: U64, n: nat, tail: Bytes, floor: U64)
    requires n in {1, 2, 4, 8} && floor <= value < Pow256(n)
    ensures Wide(BigEndian(value, n) + tail, n, floor) == Ok((value, tail))
  {
    BigEndianReads(value, n);
    var buf := BigEndian(value, n) + tail;
    assert buf[..n] == BigEndian(value, n) && buf[n..] == tail;
  }

  lemma UintReads(v: U64, tail: Bytes, d: nat)
    ensures Cursor(PutUint(v, tail), d).Uint() == Ok((v, Cursor(tail, d)))
  {
    HeadReads(MAJOR_UINT, v, tail);
    hide PutHead;
  }

  lemma BoolReads(v: bool, tail: Bytes, d: nat)
    ensures Cursor(PutBool(v, tail), d).Bool() == Ok((v, Cursor(tail, d)))
  {
    HeadReads(MAJOR_SIMPLE, if v then SIMPLE_TRUE else SIMPLE_FALSE, tail);
    hide PutHead;
  }

  lemma BlobReads(value: Bytes, tail: Bytes, d: nat)
    requires |value| < U64_LIMIT
    ensures Cursor(PutBytes(value, tail), d).Blob() == Ok((value, Cursor(tail, d)))
  {
    HeadReads(MAJOR_BYTES, |value|, value + tail);
    hide PutHead;
    assert (value + tail)[..|value|] == value && (value + tail)[|value|..] == tail;
  }

  lemma ArrayReads(v: U64, tail: Bytes, d: nat)
    requires d < MAX_DEPTH
    ensures Cursor(PutArray(v, tail), d).Array() == Ok((v, Cursor(tail, d + 1)))
  {
    HeadReads(MAJOR_ARRAY, v, tail);
    hide PutHead;
  }

  lemma MapReads(v: U64, tail: Bytes, d: nat)
    requires d < MAX_DEPTH
    ensures Cursor(PutMap(v, tail), d).Map() == Ok(MapReader(Cursor(tail, d + 1), v, None))
  {
    HeadReads(MAJOR_MAP, v, tail);
    hide PutHead;
  }

  /** Each item reads back as itself and leaves exactly the tail. */
  lemma ReadsBack()
    ensures forall v: U64, tail, d: nat {:trigger Cursor(PutUint(v, tail), d)} ::
              Cursor(PutUint(v, tail), d).Uint() == Ok((v, Cursor(tail, d)))
    ensures forall v, tail, d: nat {:trigger Cursor(PutBool(v, tail), d)} ::
              Cursor(PutBool(v, tail), d).Bool() == Ok((v, Cursor(tail, d)))
    ensures forall v, tail, d: nat {:trigger Cursor(PutBytes(v, tail), d)} :: |v| < U64_LIMIT ==>
              Cursor(PutBytes(v, tail), d).Blob() == Ok((v, Cursor(tail, d)))
    ensures forall v: U64, tail, d: nat {:trigger Cursor(PutArray(v, tail), d)} :: d < MAX_DEPTH ==>
              Cursor(PutArray(v, tail), d).Array() == Ok((v, Cursor(tail, d + 1)))
    ensures forall v: U64, tail, d: nat {:trigger Cursor(PutMap(v, tail), d)} :: d < MAX_DEPTH ==>
              Cursor(PutMap(v, tail), d).Map() == Ok(MapReader(Cursor(tail, d + 1), v, None))
  {
    hide *;
    forall v: U64, tail, d: nat ensures Cursor(PutUint(v, tail), d).Uint() == Ok((v, Cursor(tail, d))) {
      UintReads(v, tail, d);
    }
    forall v, tail, d: nat ensures Cursor(PutBool(v, tail), d).Bool() == Ok((v, Cursor(tail, d))) {
      BoolReads(v, tail, d);
    }
    forall v, tail, d: nat | |v| < U64_LIMIT ensures Cursor(PutBytes(v, tail), d).Blob() == Ok((v, Cursor(tail, d))) {
      BlobReads(v, tail, d);
    }
    forall v: U64, tail, d: nat | d < MAX_DEPTH
      ensures Cursor(PutArray(v, tail), d).Array() == Ok((v, Cursor(tail, d + 1)))
    {
      ArrayReads(v, tail, d);
    }
    forall v: U64, tail, d: nat | d < MAX_DEPTH
      ensures Cursor(PutMap(v, tail), d).Map() == Ok(MapReader(Cursor(tail, d + 1), v, None))
    {
      MapReads(v, tail, d);
    }
  }

  // --- Encodings are prefix-free ---

  /** Two items that start the same bytes are the same item with the same tail. */
  lemma HeadPeels(m: Major, v: U64, x: Bytes, n: Major, w: U64, y: Bytes)
    requires m == MAJOR_SIMPLE ==> v in {SIMPLE_FALSE, SIMPLE_TRUE}
    requires n == MAJOR_SIMPLE ==> w in {SIMPLE_FALSE, SIMPLE_TRUE}
    requires PutHead(m, v, x) == PutHead(n, w, y)
    ensures m == n && v == w && x == y
  {
    HeadReads(m, v, x);
    HeadReads(n, w, y);
  }

  lemma BytesPeel(v: Bytes, x: Bytes, w: Bytes, y: Bytes)
    requires |v| < U64_LIMIT && |w| < U64_LIMIT
    requires PutBytes(v, x) == PutBytes(w, y)
    ensures v == w && x == y
  {
    HeadPeels(MAJOR_BYTES, |v|, v + x, MAJOR_BYTES, |w|, w + y);
    SplitAt(v, x, w, y);
  }

  /** Item by item, equal encodings have equal contents and equal tails. */
  lemma Peels()
    ensures forall v: U64, x, w: U64, y {:trigger PutUint(v, x), PutUint(w, y)} :: PutUint(v, x) == PutUint(w, y) ==>
            v == w && x == y
    ensures forall v: U64, x, w: U64, y {:trigger PutArray(v, x), PutArray(w, y)} ::
            PutArray(v, x) == PutArray(w, y) ==> v == w && x == y
    ensures forall v: U64, x, w: U64, y {:trigger PutMap(v, x), PutMap(w, y)} :: PutMap(v, x) == PutMap(w, y) ==>
            v == w && x == y
    ensures forall v, x, w, y {:trigger PutBool(v, x), PutBool(w, y)} :: PutBool(v, x) == PutBool(w, y) ==>
            v == w && x == y
    ensures forall v, x, w, y {:trigger PutBytes(v, x), PutBytes(w, y)} ::
              |v| < U64_LIMIT && |w| < U64_LIMIT && PutBytes(v, x) == PutBytes(w, y) ==> v == w && x == y
  {
    forall v: U64, x, w: U64, y | PutUint(v, x) == PutUint(w, y) ensures v == w && x == y {
      HeadPeels(MAJOR_UINT, v, x, MAJOR_UINT, w, y);
    }
    forall v: U64, x, w: U64, y | PutArray(v, x) == PutArray(w, y) ensures v == w && x == y {
      HeadPeels(MAJOR_ARRAY, v, x, MAJOR_ARRAY, w, y);
    }
    forall v: U64, x, w: U64, y | PutMap(v, x) == PutMap(w, y) ensures v == w && x == y {
      HeadPeels(MAJOR_MAP, v, x, MAJOR_MAP, w, y);
    }
    forall v, x, w, y | PutBool(v, x) == PutBool(w, y) ensures v == w && x == y {
      HeadPeels(MAJOR_SIMPLE, if v then SIMPLE_TRUE else SIMPLE_FALSE, x, MAJOR_SIMPLE,
                if w then SIMPLE_TRUE else SIMPLE_FALSE, y);
    }
    forall v, x, w, y | |v| < U64_LIMIT && |w| < U64_LIMIT && PutBytes(v, x) == PutBytes(w, y)
      ensures v == w && x == y
    {
      BytesPeel(v, x, w, y);
    }
  }

  // --- Lengths ---

  /** A header is at most nine bytes. */
  lemma Lengths()
    ensures forall v: U64, x {:trigger PutUint(v, x)} :: |PutUint(v, x)| <= 9 + |x|
    ensures forall v: U64, x {:trigger PutArray(v, x)} :: |PutArray(v, x)| <= 9 + |x|
    ensures forall v: U64, x {:trigger PutMap(v, x)} :: |PutMap(v, x)| <= 9 + |x|
    ensures forall v, x {:trigger PutBool(v, x)} :: |PutBool(v, x)| <= 9 + |x|
    ensures forall v, x {:trigger PutBytes(v, x)} :: |v| < U64_LIMIT ==> |PutBytes(v, x)| <= 9 + |v| + |x|
  {
  }

  // --- Examples ---

  function Hex(bytes: seq<Byte>): Bytes {
    seq(|bytes|, i requires 0 <= i < |bytes| => Lit(bytes[i]))
  }

  lemma BigEndianSteps(v: nat, width: nat)
    requires width > 0
    ensures BigEndian(v, width) == BigEndian(v / 256, width - 1) + [Lit(v % 256)]
  {
  }

  /** Examples from appendix A of RFC 8949. */
  lemma IntegerExamples()
    ensures PutUint(0, []) == Hex([0x00]) && PutUint(23, []) == Hex([0x17]) && PutUint(24, []) == Hex([0x18, 0x18])
    ensures PutUint(1000, []) == Hex([0x19, 0x03, 0xe8])
  {
    BigEndianSteps(24, 1);
    BigEndianSteps(1000, 2);
    BigEndianSteps(3, 1);
  }

  lemma WideExample()
    ensures PutUint(1000000, []) == Hex([0x1a, 0x00, 0x0f, 0x42, 0x40])
  {
    BigEndianSteps(1000000, 4);
    BigEndianSteps(3906, 3);
    BigEndianSteps(15, 2);
    BigEndianSteps(0, 1);
  }

  lemma OneByteHeads(major: Major, n: U64, tail: Bytes)
    requires n < 24
    ensures PutHead(major, n, tail) == [Lit(32 * major + n)] + tail
  {
  }

  /** The array and the booleans of that appendix, and the map of the writer's own test. */
  lemma StructureExamples()
    ensures PutBool(false, []) == Hex([0xf4]) && PutBool(true, []) == Hex([0xf5])
    ensures PutArray(3, PutUint(1, PutUint(2, PutUint(3, [])))) == Hex([0x83, 0x01, 0x02, 0x03])
    ensures PutMap(2, PutUint(0, PutUint(2, PutUint(1, PutBytes(Hex([0xaa, 0xbb]), []))))) ==
            Hex([0xa2, 0x00, 0x02, 0x01, 0x42, 0xaa, 0xbb])
  {
    hide PutHead;
    forall major: Major, n: U64, tail | n < 24 ensures PutHead(major, n, tail) == [Lit(32 * major + n)] + tail {
      OneByteHeads(major, n, tail);
    }
  }
}
