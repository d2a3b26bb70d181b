/**
 The handshake messages on the wire (`handshake.rs`, `identity.rs`): canonical maps whose
 accepted bytes re-encode to themselves and whose encodings are prefix-free.
 */
module Messages {
  import opened Octets
  import opened Cbor

  const MODE_STANDALONE: U64 := 0
  const KEY_LEN := 32
  const MLKEM_PUBLIC_LEN := 1184
  const MLKEM_CIPHERTEXT_LEN := 1088
  const MLDSA_PUBLIC_LEN := 1952
  const MLDSA_SIGNATURE_LEN := 3309
  const ED_SIGNATURE_LEN := 64
  const HASH_LEN := 48
  const MAX_ALPN := 64
  const MAX_SUITES := 32

  function Alpn(): (s: Bytes)
    ensures |s| == 16
  {
    Ascii("reyta-transfer/2")
  }

  datatype HandshakeError =
    | Decode | UnsupportedVersion | UnsupportedSuite | PolicyViolation | InvalidKey
    | InvalidSignature | InvalidMac | Replay | EndpointMismatch | State

  datatype DevicePublic = DevicePublic(deviceId: Bytes, ed25519: Bytes, mldsa: Bytes) {
    ghost predicate Sized() {
      |deviceId| == KEY_LEN && |ed25519| == KEY_LEN && |mldsa| == MLDSA_PUBLIC_LEN
    }
  }

  datatype HybridSignature = HybridSignature(ed25519: Bytes, mldsa: Bytes) {
    ghost predicate Sized() {
      |ed25519| == ED_SIGNATURE_LEN && |mldsa| == MLDSA_SIGNATURE_LEN
    }
  }

  datatype ClientHello = ClientHello(minor: U64, mode: U64, alpn: Bytes, suites: seq<U64>, nonce: Bytes, exPk: Bytes,
                                     kemPk: Bytes,
                                     pqcRequired: bool, level: U64, cert: DevicePublic, endpoint: Bytes,
                                     timestamp: U64) {
    ghost predicate Sized() {
      && |alpn| <= MAX_ALPN && 0 < |suites| <= MAX_SUITES && (forall s :: s in suites ==> s < U16_LIMIT)
      && |nonce| == KEY_LEN && |exPk| == KEY_LEN && |kemPk| == MLKEM_PUBLIC_LEN
      && cert.Sized() && |endpoint| == KEY_LEN
    }
  }

  datatype ServerHello = ServerHello(minor: U64, mode: U64, alpn: Bytes, suite: U64, nonce: Bytes, exPk: Bytes,
                                     kemPk: Bytes,
                                     ctToA: Bytes, cert: DevicePublic, endpoint: Bytes,
                                     signature: Option<HybridSignature>) {
    ghost predicate Sized() {
      && |alpn| <= MAX_ALPN && suite < U16_LIMIT
      && |nonce| == KEY_LEN && |exPk| == KEY_LEN && |kemPk| == MLKEM_PUBLIC_LEN && |ctToA| == MLKEM_CIPHERTEXT_LEN
      && cert.Sized() && |endpoint| == KEY_LEN && (signature.Some? ==> signature.value.Sized())
    }
  }

  datatype ClientFinish = ClientFinish(ctToB: Bytes, signature: HybridSignature, mac: Bytes) {
    ghost predicate Sized() {
      |ctToB| == MLKEM_CIPHERTEXT_LEN && signature.Sized() && |mac| == HASH_LEN
    }
  }

  // --- Encoding ---

  function PutDevice(d: DevicePublic, tail: Bytes): Bytes
    requires d.Sized()
  {
    PutMap(3, PutUint(0, PutBytes(d.deviceId, PutUint(1, PutBytes(d.ed25519, PutUint(2, PutBytes(d.mldsa, tail)))))))
  }

  function PutSignature(s: HybridSignature, tail: Bytes): Bytes
    requires s.Sized()
  {
    PutMap(2, PutUint(0, PutBytes(s.ed25519, PutUint(1, PutBytes(s.mldsa, tail)))))
  }

  function PutSuites(suites: seq<U64>, tail: Bytes): Bytes {
    if suites == [] then tail else PutUint(suites[0], PutSuites(suites[1..], tail))
  }

  function PutPolicy(required: bool, level: U64, tail: Bytes): Bytes {
    PutMap(2, PutUint(0, PutBool(required, PutUint(1, PutUint(level, tail)))))
  }

  /** Keys 5 to 11 of a ClientHello. */
  function PutHelloKeys(h: ClientHello, tail: Bytes): Bytes
    requires h.Sized()
  {
    PutUint(5, PutBytes(h.nonce, PutUint(6, PutBytes(h.exPk, PutUint(7, PutBytes(h.kemPk,
      PutUint(8, PutPolicy(h.pqcRequired, h.level, PutUint(9, PutDevice(h.cert,
      PutUint(10, PutBytes(h.endpoint, PutUint(11, PutUint(h.timestamp, tail))))))))))))))
  }

  function PutClientHello(h: ClientHello, tail: Bytes): Bytes
    requires h.Sized()
  {
    PutMap(12, PutUint(0, PutUint(PROTOCOL_MAJOR, PutUint(1, PutUint(h.minor, PutUint(2, PutUint(h.mode, PutUint(3,
      PutBytes(h.alpn,
      PutUint(4, PutArray(|h.suites|, PutSuites(h.suites, PutHelloKeys(h, tail)))))))))))))
  }

  /** Keys 9 to 11 of a ServerHello; the signature is left out of what is signed. */
  function PutServerEnd(h: ServerHello, signed: bool, tail: Bytes): Bytes
    requires h.Sized() && (signed ==> h.signature.Some?)
  {
    PutUint(9, PutDevice(h.cert, PutUint(10, PutBytes(h.endpoint,
      if signed then PutUint(11, PutSignature(h.signature.value, tail)) else tail))))
  }

  /** Keys 5 to 11 of a ServerHello. */
  function PutServerKeys(h: ServerHello, signed: bool, tail: Bytes): Bytes
    requires h.Sized() && (signed ==> h.signature.Some?)
  {
    PutUint(5, PutBytes(h.nonce, PutUint(6, PutBytes(h.exPk, PutUint(7, PutBytes(h.kemPk,
      PutUint(8, PutBytes(h.ctToA, PutServerEnd(h, signed, tail)))))))))
  }

  function PutServerHello(h: ServerHello, signed: bool, tail: Bytes): Bytes
    requires h.Sized() && (signed ==> h.signature.Some?)
  {
    PutMap(if signed then 12 else 11,
      PutUint(0, PutUint(PROTOCOL_MAJOR, PutUint(1, PutUint(h.minor, PutUint(2, PutUint(h.mode, PutUint(3,
        PutBytes(h.alpn,
      PutUint(4, PutUint(h.suite, PutServerKeys(h, signed, tail))))))))))))
  }

  function PutFinishBare(ctToB: Bytes, tail: Bytes): Bytes
    requires |ctToB| == MLKEM_CIPHERTEXT_LEN
  {
    PutMap(1, PutUint(0, PutBytes(ctToB, tail)))
  }

  function EncodeClientFinish(f: ClientFinish): Bytes
    requires f.Sized()
  {
    PutMap(3, PutUint(0, PutBytes(f.ctToB, PutUint(1, PutSignature(f.signature, PutUint(2, PutBytes(f.mac, [])))))))
  }

  function EncodeServerFinish(mac: Bytes): Bytes
    requires |mac| == HASH_LEN
  {
    PutMap(1, PutUint(0, PutBytes(mac, [])))
  }

  // --- Decoding ---

  function ReadDevice(c: Cursor): Result<(DevicePublic, Cursor), CborError> {
    var m :- c.Map();
    var (deviceId, m1) :- m.KeyBlobOf(0, KEY_LEN);
    var (ed25519, m2) :- m1.KeyBlobOf(1, KEY_LEN);
    var (mldsa, m3) :- m2.KeyBlobOf(2, MLDSA_PUBLIC_LEN);
    var c' :- m3.Done();
    Ok((DevicePublic(deviceId, ed25519, mldsa), c'))
  }

  function ReadSignature(c: Cursor): Result<(HybridSignature, Cursor), CborError> {
    var m :- c.Map();
    var (ed25519, m1) :- m.KeyBlobOf(0, ED_SIGNATURE_LEN);
    var (mldsa, m2) :- m1.KeyBlobOf(1, MLDSA_SIGNATURE_LEN);
    var c' :- m2.Done();
    Ok((HybridSignature(ed25519, mldsa), c'))
  }

  function ReadSuites(n: nat, c: Cursor): Result<(seq<U64>, Cursor), CborError> {
    if n == 0 then Ok(([], c))
    else
      var (suite, c1) :- c.Uint();
      if suite >= U16_LIMIT then Err(InvalidValue)
      else
        var (rest, c2) :- ReadSuites(n - 1, c1);
        Ok(([suite] + rest, c2))
  }

  function ReadPolicy(c: Cursor): Result<((bool, U64), Cursor), CborError> {
    var m :- c.Map();
    var (required, m1) :- m.KeyBool(0);
    var (level, m2) :- m1.KeyUint(1);
    var c' :- m2.Done();
    Ok(((required, level), c'))
  }

  function EndOf(m: MapReader): (r: Result<(), CborError>)
    ensures r.Ok? ==> m.remaining == 0 && m.reader.buf == []
  {
    var c :- m.Done();
    c.Finish()
  }

  datatype HelloKeys = HelloKeys(nonce: Bytes, exPk: Bytes, kemPk: Bytes, pqcRequired: bool, level: U64,
                                 cert: DevicePublic, endpoint: Bytes, timestamp: U64)

  function ReadHelloKeys(m: MapReader): Result<HelloKeys, CborError> {
    var (nonce, m1) :- m.KeyBlobOf(5, KEY_LEN);
    var (exPk, m2) :- m1.KeyBlobOf(6, KEY_LEN);
    var (kemPk, m3) :- m2.KeyBlobOf(7, MLKEM_PUBLIC_LEN);
    var m4 :- m3.Key(8);
    var ((required, level), c4) :- ReadPolicy(m4.reader);
    var m5 :- m4.(reader := c4).Key(9);
    var (cert, c5) :- ReadDevice(m5.reader);
    var (endpoint, m6) :- m5.(reader := c5).KeyBlobOf(10, KEY_LEN);
    var (timestamp, m7) :- m6.KeyUint(11);
    var _ :- EndOf(m7);
    Ok(HelloKeys(nonce, exPk, kemPk, required, level, cert, endpoint, timestamp))
  }

  function DecodeClientHello(bytes: Bytes): Result<ClientHello, HandshakeError> {
    var c :- OrElse(Control(bytes), HandshakeError.Decode);
    var m :- OrElse(c.Map(), HandshakeError.Decode);
    var (major, m0) :- OrElse(m.KeyUint(0), HandshakeError.Decode);
    if major != PROTOCOL_MAJOR then Err(UnsupportedVersion)
    else
      var (minor, m1) :- OrElse(m0.KeyUint(1), HandshakeError.Decode);
      var (mode, m2) :- OrElse(m1.KeyUint(2), HandshakeError.Decode);
      var (alpn, m3) :- OrElse(m2.KeyBlob(3), HandshakeError.Decode);
      if |alpn| > MAX_ALPN then Err(HandshakeError.Decode)
      else
        var m4 :- OrElse(m3.Key(4), HandshakeError.Decode);
        var (n, c4) :- OrElse(m4.reader.Array(), HandshakeError.Decode);
        if n == 0 || n > MAX_SUITES then Err(HandshakeError.Decode)
        else
          var (suites, c5) :- OrElse(ReadSuites(n, c4), HandshakeError.Decode);
          var k :- OrElse(ReadHelloKeys(m4.(reader := c5.Leave())), HandshakeError.Decode);
          Ok(ClientHello(minor, mode, alpn, suites, k.nonce, k.exPk, k.kemPk, k.pqcRequired, k.level, k.cert,
                         k.endpoint, k.timestamp))
  }

  function ReadServerEnd(m: MapReader): Result<(DevicePublic, Bytes, HybridSignature), CborError> {
    var m1 :- m.Key(9);
    var (cert, c1) :- ReadDevice(m1.reader);
    var (endpoint, m2) :- m1.(reader := c1).KeyBlobOf(10, KEY_LEN);
    var m3 :- m2.Key(11);
    var (signature, c3) :- ReadSignature(m3.reader);
    var _ :- EndOf(m3.(reader := c3));
    Ok((cert, endpoint, signature))
  }

  datatype ServerKeys = ServerKeys(nonce: Bytes, exPk: Bytes, kemPk: Bytes, ctToA: Bytes, cert: DevicePublic,
                                   endpoint: Bytes, signature: HybridSignature)

  function ReadServerKeys(m: MapReader): Result<ServerKeys, CborError> {
    var (nonce, m5) :- m.KeyBlobOf(5, KEY_LEN);
    var (exPk, m6) :- m5.KeyBlobOf(6, KEY_LEN);
    var (kemPk, m7) :- m6.KeyBlobOf(7, MLKEM_PUBLIC_LEN);
    var (ctToA, m8) :- m7.KeyBlobOf(8, MLKEM_CIPHERTEXT_LEN);
    var (cert, endpoint, signature) :- ReadServerEnd(m8);
    Ok(ServerKeys(nonce, exPk, kemPk, ctToA, cert, endpoint, signature))
  }

  function DecodeServerHello(bytes: Bytes): Result<ServerHello, HandshakeError> {
    var c :- OrElse(Control(bytes), HandshakeError.Decode);
    var m :- OrElse(c.Map(), HandshakeError.Decode);
    var (major, m0) :- OrElse(m.KeyUint(0), HandshakeError.Decode);
    if major != PROTOCOL_MAJOR then Err(UnsupportedVersion)
    else
      var (minor, m1) :- OrElse(m0.KeyUint(1), HandshakeError.Decode);
      var (mode, m2) :- OrElse(m1.KeyUint(2), HandshakeError.Decode);
      var (alpn, m3) :- OrElse(m2.KeyBlob(3), HandshakeError.Decode);
      if |alpn| > MAX_ALPN then Err(HandshakeError.Decode)
      else
        var (suite, m4) :- OrElse(m3.KeyUint(4), HandshakeError.Decode);
        if suite >= U16_LIMIT then Err(HandshakeError.Decode)
        else
          var k :- OrElse(ReadServerKeys(m4), HandshakeError.Decode);
          Ok(ServerHello(minor, mode, alpn, suite, k.nonce, k.exPk, k.kemPk, k.ctToA, k.cert, k.endpoint,
                         Some(k.signature)))
  }

  function DecodeClientFinish(bytes: Bytes): Result<ClientFinish, HandshakeError> {
    var c :- OrElse(Control(bytes), HandshakeError.Decode);
    var m :- OrElse(c.Map(), HandshakeError.Decode);
    var (ctToB, m0) :- OrElse(m.KeyBlobOf(0, MLKEM_CIPHERTEXT_LEN), HandshakeError.Decode);
    var m1 :- OrElse(m0.Key(1), HandshakeError.Decode);
    var (signature, c1) :- OrElse(ReadSignature(m1.reader), HandshakeError.Decode);
    var (mac, m2) :- OrElse(m1.(reader := c1).KeyBlobOf(2, HASH_LEN), HandshakeError.Decode);
    var _ :- OrElse(EndOf(m2), HandshakeError.Decode);
    Ok(ClientFinish(ctToB, signature, mac))
  }

  function DecodeServerFinish(bytes: Bytes): Result<Bytes, HandshakeError> {
    var c :- OrElse(Control(bytes), HandshakeError.Decode);
    var m :- OrElse(c.Map(), HandshakeError.Decode);
    var (mac, m0) :- OrElse(m.KeyBlobOf(0, HASH_LEN), HandshakeError.Decode);
    var _ :- OrElse(EndOf(m0), HandshakeError.Decode);
    Ok(mac)
  }

  // --- Accepted bytes re-encode to themselves ---

  lemma DeviceCanonical(c: Cursor)
    requires ReadDevice(c).Ok?
    ensures var (d, c') := ReadDevice(c).value; d.Sized() && c.buf == PutDevice(d, c'.buf) && c'.depth == c.depth
  {
    hide PutHead, Cursor.Map, MapReader.KeyBlobOf, MapReader.Done;
  }

  lemma SignatureCanonical(c: Cursor)
    requires ReadSignature(c).Ok?
    ensures var (s, c') := ReadSignature(c).value; s.Sized() && c.buf == PutSignature(s, c'.buf) && c'.depth == c.depth
  {
    hide PutHead, Cursor.Map, MapReader.KeyBlobOf, MapReader.Done;
  }

  lemma PolicyCanonical(c: Cursor)
    requires ReadPolicy(c).Ok?
    ensures var ((required, level), c') := ReadPolicy(c).value;
            c.buf == PutPolicy(required, level, c'.buf) && c'.depth == c.depth
  {
    hide PutHead, Cursor.Map, MapReader.KeyBool, MapReader.KeyUint, MapReader.Done;
  }

  lemma {:induction false} SuitesCanonical(n: nat, c: Cursor)
    requires ReadSuites(n, c).Ok?
    ensures var (suites, c') := ReadSuites(n, c).value;
            && |suites| == n && (forall s :: s in suites ==> s < U16_LIMIT)
            && c.buf == PutSuites(suites, c'.buf) && c'.depth == c.depth
  {
    hide PutHead, Cursor.Uint;
    if n > 0 {
      var (suite, c1) := c.Uint().value;
      SuitesCanonical(n - 1, c1);
      var rest := ReadSuites(n - 1, c1).value.0;
      assert ([suite] + rest)[1..] == rest;
    }
  }

  lemma HelloKeysCanonical(m: MapReader, h: ClientHello)
    requires ReadHelloKeys(m).Ok?
    requires ReadHelloKeys(m).value ==
             HelloKeys(h.nonce, h.exPk, h.kemPk, h.pqcRequired, h.level, h.cert, h.endpoint, h.timestamp)
    requires |h.alpn| <= MAX_ALPN && 0 < |h.suites| <= MAX_SUITES && (forall s :: s in h.suites ==> s < U16_LIMIT)
    ensures m.remaining == 7 && h.Sized() && m.reader.buf == PutHelloKeys(h, [])
  {
    hide PutHead, PutDevice, PutPolicy, ReadDevice, ReadPolicy, MapReader.Key, MapReader.KeyUint, MapReader.KeyBlobOf,
         EndOf;
    var m4 := m.KeyBlobOf(5, KEY_LEN).value.1.KeyBlobOf(6, KEY_LEN).value.1
               .KeyBlobOf(7, MLKEM_PUBLIC_LEN).value.1.Key(8).value;
    PolicyCanonical(m4.reader);
    var m5 := m4.(reader := ReadPolicy(m4.reader).value.1).Key(9).value;
    DeviceCanonical(m5.reader);
  }

  lemma ClientHelloCanonical(bytes: Bytes)
    requires DecodeClientHello(bytes).Ok?
    ensures var h := DecodeClientHello(bytes).value; h.Sized() && bytes == PutClientHello(h, [])
  {
    hide PutHead, PutSuites, PutHelloKeys, ReadSuites, ReadHelloKeys, Cursor.Array, Cursor.Map, MapReader.Key,
         MapReader.KeyUint, MapReader.KeyBlob;
    var m3 := Cursor(bytes, 0).Map().value.KeyUint(0).value.1.KeyUint(1).value.1.KeyUint(2).value.1.KeyBlob(3).value.1;
    var m4 := m3.Key(4).value;
    var (n, c4) := m4.reader.Array().value;
    SuitesCanonical(n, c4);
    HelloKeysCanonical(m4.(reader := ReadSuites(n, c4).value.1.Leave()), DecodeClientHello(bytes).value);
  }

  lemma ServerEndCanonical(m: MapReader, h: ServerHello)
    requires ReadServerEnd(m).Ok? && h.signature.Some? &&
             ReadServerEnd(m).value == (h.cert, h.endpoint, h.signature.value)
    ensures m.remaining == 3 && h.cert.Sized() && |h.endpoint| == KEY_LEN && h.signature.value.Sized()
    ensures h.Sized() ==> m.reader.buf == PutServerEnd(h, true, [])
  {
    hide PutHead, PutDevice, PutSignature, ReadDevice, ReadSignature, MapReader.Key, MapReader.KeyBlobOf, EndOf;
    var m1 := m.Key(9).value;
    DeviceCanonical(m1.reader);
    var m3 := m1.(reader := ReadDevice(m1.reader).value.1).KeyBlobOf(10, KEY_LEN).value.1.Key(11).value;
    SignatureCanonical(m3.reader);
  }

  lemma ServerHelloCanonical(bytes: Bytes)
    requires DecodeServerHello(bytes).Ok?
    ensures var h := DecodeServerHello(bytes).value;
            h.Sized() && h.signature.Some? && bytes == PutServerHello(h, true, [])
  {
    hide PutHead, PutServerEnd, ReadServerEnd, Cursor.Map, MapReader.KeyUint, MapReader.KeyBlob, MapReader.KeyBlobOf;
    var h := DecodeServerHello(bytes).value;
    var m3 := Cursor(bytes, 0).Map().value.KeyUint(0).value.1.KeyUint(1).value.1.KeyUint(2).value.1;
    var m4 := m3.KeyBlob(3).value.1.KeyUint(4).value.1;
    var m8 := m4.KeyBlobOf(5, KEY_LEN).value.1.KeyBlobOf(6, KEY_LEN).value.1
                .KeyBlobOf(7, MLKEM_PUBLIC_LEN).value.1.KeyBlobOf(8, MLKEM_CIPHERTEXT_LEN).value.1;
    ServerEndCanonical(m8, h);
  }

  lemma ClientFinishCanonical(bytes: Bytes)
    requires DecodeClientFinish(bytes).Ok?
    ensures var f := DecodeClientFinish(bytes).value; f.Sized() && bytes == EncodeClientFinish(f)
  {
    hide PutHead, PutSignature, ReadSignature, Cursor.Map, MapReader.Key, MapReader.KeyBlobOf, EndOf;
    var m1 := Cursor(bytes, 0).Map().value.KeyBlobOf(0, MLKEM_CIPHERTEXT_LEN).value.1.Key(1).value;
    SignatureCanonical(m1.reader);
  }

  lemma ServerFinishCanonical(bytes: Bytes)
    requires DecodeServerFinish(bytes).Ok?
    ensures var mac := DecodeServerFinish(bytes).value; |mac| == HASH_LEN && bytes == EncodeServerFinish(mac)
  {
    hide PutHead, Cursor.Map, MapReader.KeyBlobOf, EndOf;
  }

  // --- Prefix-freeness ---

  /** An item followed by more bytes is the item put in front of them. */
  lemma Appends()
    ensures forall v: U64, x, t {:trigger PutUint(v, x) + t} :: PutUint(v, x) + t == PutUint(v, x + t)
    ensures forall v: U64, x, t {:trigger PutArray(v, x) + t} :: PutArray(v, x) + t == PutArray(v, x + t)
    ensures forall v: U64, x, t {:trigger PutMap(v, x) + t} :: PutMap(v, x) + t == PutMap(v, x + t)
    ensures forall v, x, t {:trigger PutBool(v, x) + t} :: PutBool(v, x) + t == PutBool(v, x + t)
    ensures forall v, x, t {:trigger PutBytes(v, x) + t} :: |v| < U64_LIMIT ==> PutBytes(v, x) + t == PutBytes(v, x + t)
  {
    hide Header;
    forall v: Bytes, x: Bytes, t: Bytes | |v| < U64_LIMIT ensures PutBytes(v, x) + t == PutBytes(v, x + t) {
      assert (v + x) + t == v + (x + t);
      HeadAppends(MAJOR_BYTES, |v|, v + x, t);
    }
    forall v: U64, x, t ensures PutUint(v, x) + t == PutUint(v, x + t) { HeadAppends(MAJOR_UINT, v, x, t); }
    forall v: U64, x, t ensures PutArray(v, x) + t == PutArray(v, x + t) { HeadAppends(MAJOR_ARRAY, v, x, t); }
    forall v: U64, x, t ensures PutMap(v, x) + t == PutMap(v, x + t) { HeadAppends(MAJOR_MAP, v, x, t); }
    forall v, x, t ensures PutBool(v, x) + t == PutBool(v, x + t) {
      HeadAppends(MAJOR_SIMPLE, if v then SIMPLE_TRUE else SIMPLE_FALSE, x, t);
    }
  }

  lemma HeadAppends(major: Major, value: U64, x: Bytes, t: Bytes)
    requires major == MAJOR_SIMPLE ==> value in {SIMPLE_FALSE, SIMPLE_TRUE}
    ensures PutHead(major, value, x) + t == PutHead(major, value, x + t)
  {
    assert PutHead(major, value, x) + t == PutHead(major, value, x + t);
  }

  lemma NothingBefore(t: Bytes)
    ensures [] + t == t
  {
  }

  lemma {:induction false} SuitesAppend(suites: seq<U64>, x: Bytes, t: Bytes)
    ensures PutSuites(suites, x) + t == PutSuites(suites, x + t)
  {
    hide PutUint;
    if suites != [] {
      SuitesAppend(suites[1..], x, t);
      Appends();
    }
  }

  lemma DeviceAppends(d: DevicePublic, x: Bytes, t: Bytes)
    requires d.Sized()
    ensures PutDevice(d, x) + t == PutDevice(d, x + t)
  {
    hide PutUint, PutBytes, PutMap;
    Appends();
  }

  lemma SignatureAppends(s: HybridSignature, x: Bytes, t: Bytes)
    requires s.Sized()
    ensures PutSignature(s, x) + t == PutSignature(s, x + t)
  {
    hide PutUint, PutBytes, PutMap;
    Appends();
  }

  lemma HelloKeysAppend(h: ClientHello, t: Bytes)
    requires h.Sized()
    ensures PutHelloKeys(h, []) + t == PutHelloKeys(h, t)
  {
    hide PutUint, PutBytes, PutMap, PutBool, PutDevice;
    Appends();
    NothingBefore(t);
    DeviceAppends(h.cert, PutUint(10, PutBytes(h.endpoint, PutUint(11, PutUint(h.timestamp, [])))), t);
  }

  lemma ClientHelloAppends(h: ClientHello, t: Bytes)
    requires h.Sized()
    ensures PutClientHello(h, []) + t == PutClientHello(h, t)
  {
    hide PutUint, PutBytes, PutMap, PutArray, PutSuites, PutHelloKeys;
    Appends();
    SuitesAppend(h.suites, PutHelloKeys(h, []), t);
    HelloKeysAppend(h, t);
  }

  lemma ServerEndAppends(h: ServerHello, signed: bool, t: Bytes)
    requires h.Sized() && (signed ==> h.signature.Some?)
    ensures PutServerEnd(h, signed, []) + t == PutServerEnd(h, signed, t)
  {
    hide PutUint, PutBytes, PutMap, PutDevice, PutSignature;
    Appends();
    NothingBefore(t);
    if signed {
      SignatureAppends(h.signature.value, [], t);
      DeviceAppends(h.cert, PutUint(10, PutBytes(h.endpoint, PutUint(11, PutSignature(h.signature.value, [])))), t);
    } else {
      DeviceAppends(h.cert, PutUint(10, PutBytes(h.endpoint, [])), t);
    }
  }

  lemma ServerHelloAppends(h: ServerHello, signed: bool, t: Bytes)
    requires h.Sized() && (signed ==> h.signature.Some?)
    ensures PutServerHello(h, signed, []) + t == PutServerHello(h, signed, t)
  {
    hide PutUint, PutBytes, PutMap, PutServerEnd;
    Appends();
    ServerEndAppends(h, signed, t);
  }

  // Equal encodings, with whatever follows them, have equal contents and equal rests.

  lemma DevicePeels(a: DevicePublic, x: Bytes, b: DevicePublic, y: Bytes)
    requires a.Sized() && b.Sized() && PutDevice(a, x) == PutDevice(b, y)
    ensures a == b && x == y
  {
    hide PutUint, PutBytes, PutMap;
    Peels();
  }

  lemma SignaturePeels(a: HybridSignature, x: Bytes, b: HybridSignature, y: Bytes)
    requires a.Sized() && b.Sized() && PutSignature(a, x) == PutSignature(b, y)
    ensures a == b && x == y
  {
    hide PutUint, PutBytes, PutMap;
    Peels();
  }

  lemma {:induction false} SuitesPeel(a: seq<U64>, x: Bytes, b: seq<U64>, y: Bytes)
    requires |a| == |b| && PutSuites(a, x) == PutSuites(b, y)
    ensures a == b && x == y
  {
    hide PutUint;
    if a != [] {
      Peels();
      SuitesPeel(a[1..], x, b[1..], y);
    }
  }

  lemma HelloKeysPeel(a: ClientHello, x: Bytes, b: ClientHello, y: Bytes)
    requires a.Sized() && b.Sized() && PutHelloKeys(a, x) == PutHelloKeys(b, y)
    ensures a.nonce == b.nonce && a.exPk == b.exPk && a.kemPk == b.kemPk && a.pqcRequired == b.pqcRequired &&
            a.level == b.level
    ensures a.cert == b.cert && a.endpoint == b.endpoint && a.timestamp == b.timestamp && x == y
  {
    hide PutUint, PutBytes, PutMap, PutBool, PutDevice;
    Peels();
    DevicePeels(a.cert, PutUint(10, PutBytes(a.endpoint, PutUint(11, PutUint(a.timestamp, x)))),
                b.cert, PutUint(10, PutBytes(b.endpoint, PutUint(11, PutUint(b.timestamp, y)))));
  }

  lemma ClientHelloPeels(a: ClientHello, x: Bytes, b: ClientHello, y: Bytes)
    requires a.Sized() && b.Sized() && PutClientHello(a, x) == PutClientHello(b, y)
    ensures a == b && x == y
  {
    hide PutUint, PutBytes, PutMap, PutArray, PutSuites, PutHelloKeys;
    Peels();
    SuitesPeel(a.suites, PutHelloKeys(a, x), b.suites, PutHelloKeys(b, y));
    HelloKeysPeel(a, x, b, y);
  }

  /** What of a ServerHello its encoding carries. */
  function Carried(h: ServerHello, signed: bool): ServerHello {
    if signed then h else h.(signature := None)
  }

  lemma ServerEndPeels(a: ServerHello, x: Bytes, b: ServerHello, y: Bytes, signed: bool)
    requires a.Sized() && b.Sized() && (signed ==> a.signature.Some? && b.signature.Some?)
    requires PutServerEnd(a, signed, x) == PutServerEnd(b, signed, y)
    ensures a.cert == b.cert && a.endpoint == b.endpoint && (signed ==> a.signature == b.signature) && x == y
  {
    hide PutUint, PutBytes, PutMap, PutDevice, PutSignature;
    Peels();
    var u := if signed then PutUint(11, PutSignature(a.signature.value, x)) else x;
    var v := if signed then PutUint(11, PutSignature(b.signature.value, y)) else y;
    DevicePeels(a.cert, PutUint(10, PutBytes(a.endpoint, u)), b.cert, PutUint(10, PutBytes(b.endpoint, v)));
    if signed {
      SignaturePeels(a.signature.value, x, b.signature.value, y);
    }
  }

  lemma ServerHelloPeels(a: ServerHello, s: bool, x: Bytes, b: ServerHello, t: bool, y: Bytes)
    requires a.Sized() && b.Sized() && (s ==> a.signature.Some?) && (t ==> b.signature.Some?)
    requires PutServerHello(a, s, x) == PutServerHello(b, t, y)
    ensures s == t && Carried(a, s) == Carried(b, s) && x == y
  {
    hide PutUint, PutBytes, PutMap, PutServerEnd;
    Peels();
    ServerEndPeels(a, x, b, y, s);
  }

  lemma FinishPeels(a: Bytes, x: Bytes, b: Bytes, y: Bytes)
    requires |a| == MLKEM_CIPHERTEXT_LEN && |b| == MLKEM_CIPHERTEXT_LEN && PutFinishBare(a, x) == PutFinishBare(b, y)
    ensures a == b && x == y
  {
    hide PutUint, PutBytes, PutMap;
    Peels();
  }

  // --- What was encoded reads back ---

  lemma DeviceReads(d: DevicePublic, tail: Bytes, depth: nat)
    requires d.Sized() && depth < MAX_DEPTH
    ensures ReadDevice(Cursor(PutDevice(d, tail), depth)) == Ok((d, Cursor(tail, depth)))
  {
    hide PutHead, PutUint, PutBytes, PutMap, Cursor.Uint, Cursor.Blob, Cursor.Map;
    ReadsBack();
  }

  lemma SignatureReads(s: HybridSignature, tail: Bytes, depth: nat)
    requires s.Sized() && depth < MAX_DEPTH
    ensures ReadSignature(Cursor(PutSignature(s, tail), depth)) == Ok((s, Cursor(tail, depth)))
  {
    hide PutHead, PutUint, PutBytes, PutMap, Cursor.Uint, Cursor.Blob, Cursor.Map;
    ReadsBack();
  }

  lemma PolicyReads(required: bool, level: U64, tail: Bytes, depth: nat)
    requires depth < MAX_DEPTH
    ensures ReadPolicy(Cursor(PutPolicy(required, level, tail), depth)) == Ok(((required, level), Cursor(tail, depth)))
  {
    hide PutHead, PutUint, PutBool, PutMap, Cursor.Uint, Cursor.Bool, Cursor.Map;
    ReadsBack();
  }

  lemma {:induction false} SuitesRead(suites: seq<U64>, tail: Bytes, depth: nat)
    requires forall s :: s in suites ==> s < U16_LIMIT
    ensures ReadSuites(|suites|, Cursor(PutSuites(suites, tail), depth)) == Ok((suites, Cursor(tail, depth)))
    decreases |suites|
  {
    hide PutUint, Cursor.Uint;
    if suites != [] {
      ReadsBack();
      assert forall s :: s in suites[1..] ==> s in suites;
      assert suites[0] in suites;
      SuitesRead(suites[1..], tail, depth);
      assert [suites[0]] + suites[1..] == suites;
    }
  }

  lemma HelloKeysRead(h: ClientHello)
    requires h.Sized()
    ensures ReadHelloKeys(MapReader(Cursor(PutHelloKeys(h, []), 1), 7, Some(4))) ==
            Ok(HelloKeys(h.nonce, h.exPk, h.kemPk, h.pqcRequired, h.level, h.cert, h.endpoint, h.timestamp))
  {
    hide PutHead, PutUint, PutBytes, PutMap, PutDevice, PutPolicy, ReadDevice, ReadPolicy, Cursor.Uint, Cursor.Blob;
    ReadsBack();
    var end := PutUint(10, PutBytes(h.endpoint, PutUint(11, PutUint(h.timestamp, []))));
    DeviceReads(h.cert, end, 1);
    PolicyReads(h.pqcRequired, h.level, PutUint(9, PutDevice(h.cert, end)), 1);
  }

  lemma ClientHelloReads(h: ClientHello)
    requires h.Sized()
    ensures DecodeClientHello(PutClientHello(h, [])) == Ok(h)
  {
    hide PutHead, PutUint, PutBytes, PutMap, PutArray, PutSuites, PutHelloKeys, ReadSuites, ReadHelloKeys, Cursor.Uint,
         Cursor.Blob, Cursor.Array, Cursor.Map;
    ReadsBack();
    ClientHelloShort(h);
    SuitesRead(h.suites, PutHelloKeys(h, []), 2);
    HelloKeysRead(h);
  }

  lemma ServerEndReads(h: ServerHello)
    requires h.Sized() && h.signature.Some?
    ensures ReadServerEnd(MapReader(Cursor(PutServerEnd(h, true, []), 1), 3, Some(8))) ==
            Ok((h.cert, h.endpoint, h.signature.value))
  {
    hide PutHead, PutUint, PutBytes, PutMap, PutDevice, PutSignature, ReadDevice, ReadSignature, Cursor.Uint,
         Cursor.Blob;
    ReadsBack();
    SignatureReads(h.signature.value, [], 1);
    DeviceReads(h.cert, PutUint(10, PutBytes(h.endpoint, PutUint(11, PutSignature(h.signature.value, [])))), 1);
  }

  lemma ServerKeysRead(h: ServerHello)
    requires h.Sized() && h.signature.Some?
    ensures ReadServerKeys(MapReader(Cursor(PutServerKeys(h, true, []), 1), 7, Some(4))) ==
            Ok(ServerKeys(h.nonce, h.exPk, h.kemPk, h.ctToA, h.cert, h.endpoint, h.signature.value))
  {
    hide PutHead, PutUint, PutBytes, PutServerEnd, ReadServerEnd, Cursor.Uint, Cursor.Blob;
    ReadsBack();
    ServerEndReads(h);
  }

  lemma ServerHelloReads(h: ServerHello)
    requires h.Sized() && h.signature.Some?
    ensures DecodeServerHello(PutServerHello(h, true, [])) == Ok(h)
  {
    hide PutHead, PutUint, PutBytes, PutMap, PutServerKeys, ReadServerKeys, Cursor.Uint, Cursor.Blob, Cursor.Map;
    ReadsBack();
    ServerHelloShort(h);
    ServerKeysRead(h);
  }

  lemma ClientFinishReads(f: ClientFinish)
    requires f.Sized()
    ensures DecodeClientFinish(EncodeClientFinish(f)) == Ok(f)
  {
    hide PutHead, PutUint, PutBytes, PutMap, PutSignature, ReadSignature, Cursor.Uint, Cursor.Blob, Cursor.Map;
    ReadsBack();
    ClientFinishShort(f);
    SignatureReads(f.signature, PutUint(2, PutBytes(f.mac, [])), 1);
  }

  lemma ServerFinishReads(mac: Bytes)
    requires |mac| == HASH_LEN
    ensures DecodeServerFinish(EncodeServerFinish(mac)) == Ok(mac)
  {
    hide PutHead, PutUint, PutBytes, PutMap, Cursor.Uint, Cursor.Blob, Cursor.Map;
    ReadsBack();
    Lengths();
  }

  // --- All of them fit a control object ---

  lemma {:induction false} SuitesShort(suites: seq<U64>, tail: Bytes)
    ensures |PutSuites(suites, tail)| <= 9 * |suites| + |tail|
  {
    hide PutUint;
    if suites != [] {
      Lengths();
      SuitesShort(suites[1..], tail);
    }
  }

  lemma ClientHelloShort(h: ClientHello)
    requires h.Sized()
    ensures |PutClientHello(h, [])| <= 5000
  {
    hide PutUint, PutBytes, PutMap, PutArray, PutBool, PutSuites;
    Lengths();
    SuitesShort(h.suites, PutHelloKeys(h, []));
  }

  lemma ServerHelloShort(h: ServerHello)
    requires h.Sized() && h.signature.Some?
    ensures |PutServerHello(h, true, [])| <= 9000
  {
    hide PutUint, PutBytes, PutMap;
    Lengths();
  }

  lemma ClientFinishShort(f: ClientFinish)
    requires f.Sized()
    ensures |EncodeClientFinish(f)| <= 5000
  {
    hide PutUint, PutBytes, PutMap;
    Lengths();
  }
}
