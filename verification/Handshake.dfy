/**
 The standalone handshake (`handshake.rs`): an initiator and a responder that each replace
 their state as messages arrive, over symbolic key agreement and signatures.
 */
module Handshake {
  import opened Octets
  import opened Cbor
  import opened Messages
  import opened ReplayCache

  const TIMESTAMP_WINDOW := 300

  // --- Primitives ---

  /** A device: three key pairs derived from one seed. */
  datatype DeviceIdentity = DeviceIdentity(seed: nat) {
    function Public(): (d: DevicePublic)
      ensures d.Sized()
    {
      DevicePublic(Output(DeviceKey(seed, 0), KEY_LEN), Output(DeviceKey(seed, 1), KEY_LEN),
                   Output(DeviceKey(seed, 2), MLDSA_PUBLIC_LEN))
    }
  }

  function Sign(d: DevicePublic, message: Bytes, coin: nat): (s: HybridSignature)
    ensures s.Sized()
  {
    HybridSignature(Output(EdSignature(d.ed25519, message), ED_SIGNATURE_LEN),
                    Output(MlDsaSignature(d.mldsa, message, coin), MLDSA_SIGNATURE_LEN))
  }

  /** Both signatures must be the device's, over this message. */
  predicate Verify(d: DevicePublic, message: Bytes, s: HybridSignature) {
    && s.ed25519 == Output(EdSignature(d.ed25519, message), ED_SIGNATURE_LEN)
    && |s.mldsa| == MLDSA_SIGNATURE_LEN && s.mldsa[0].Derived?
    && var t := s.mldsa[0].of;
       t.MlDsaSignature? && t.signer == d.mldsa && t.message == message && s.mldsa == Output(t, MLDSA_SIGNATURE_LEN)
  }

  /** Both halves are signatures of this message under the keys that the device publishes. */
  ghost predicate SignedWith(d: DevicePublic, message: Bytes, s: HybridSignature, coin: nat) {
    && s.ed25519 == Output(EdSignature(d.ed25519, message), ED_SIGNATURE_LEN)
    && s.mldsa == Output(MlDsaSignature(d.mldsa, message, coin), MLDSA_SIGNATURE_LEN)
  }

  ghost predicate SignedBy(d: DevicePublic, message: Bytes, s: HybridSignature) {
    exists coin :: SignedWith(d, message, s, coin)
  }

  /** Verification accepts exactly such signatures. */
  lemma VerifyIs(d: DevicePublic, message: Bytes, s: HybridSignature)
    ensures Verify(d, message, s) <==> SignedBy(d, message, s)
  {
    if Verify(d, message, s) {
      assert SignedWith(d, message, s, s.mldsa[0].of.coin);
    }
    if SignedBy(d, message, s) {
      var coin :| SignedWith(d, message, s, coin);
      assert s.mldsa[0] == Derived(MlDsaSignature(d.mldsa, message, coin), 0);
    }
  }

  lemma SignatureVerifies(d: DevicePublic, message: Bytes, coin: nat)
    ensures Verify(d, message, Sign(d, message, coin))
  {
    var t := MlDsaSignature(d.mldsa, message, coin);
    assert Output(t, MLDSA_SIGNATURE_LEN)[0] == Derived(t, 0);
  }

  function XPoint(scalar: nat): (p: Bytes)
    ensures |p| == KEY_LEN
  {
    Output(XPublic(scalar), KEY_LEN)
  }

  /** X25519. Both sides of honest points get one value; a zero result, possible only for another point, is refused. */
  function XAgree(scalar: nat, point: Bytes, zero: bool): (r: Result<Bytes, HandshakeError>)
    ensures r.Ok? ==> |r.value| == KEY_LEN
  {
    if |point| == KEY_LEN && point[0].Derived? && point[0].of.XPublic? && point == XPoint(point[0].of.scalar)
    then Ok(Output(XShared({scalar, point[0].of.scalar}), KEY_LEN))
    else if zero then Err(InvalidKey)
    else Ok(Output(XForeign(scalar, point), KEY_LEN))
  }

  function KemKey(seed: nat): (p: Bytes)
    ensures |p| == MLKEM_PUBLIC_LEN
  {
    Output(KemPublic(seed), MLKEM_PUBLIC_LEN)
  }

  predicate IsKemKey(pk: Bytes) {
    |pk| == MLKEM_PUBLIC_LEN && pk[0].Derived? && pk[0].of.KemPublic? && pk == KemKey(pk[0].of.seed)
  }

  /** ML-KEM encapsulation; a key that is not a real one may be refused. */
  function Encapsulate(pk: Bytes, coin: nat, accepted: bool): (r: Result<(Bytes, Bytes), HandshakeError>)
    ensures r.Ok? ==> |r.value.0| == MLKEM_CIPHERTEXT_LEN && |r.value.1| == KEY_LEN
  {
    if IsKemKey(pk) || accepted
    then Ok((Output(KemCiphertext(pk, coin), MLKEM_CIPHERTEXT_LEN), Output(KemShared(pk, coin), KEY_LEN)))
    else Err(InvalidKey)
  }

  /** Decapsulation, with implicit rejection of anything else. */
  function Decapsulate(seed: nat, ct: Bytes): (s: Bytes)
    ensures |s| == KEY_LEN
  {
    if |ct| == MLKEM_CIPHERTEXT_LEN && ct[0].Derived? && ct[0].of.KemCiphertext? && ct[0].of.public == KemKey(seed)
       && ct == Output(ct[0].of, MLKEM_CIPHERTEXT_LEN)
    then Output(KemShared(KemKey(seed), ct[0].of.coin), KEY_LEN)
    else Output(KemReject(seed, ct), KEY_LEN)
  }

  // --- Transcripts and keys ---

  function Th1(ch: Bytes, sh: Bytes): (h: Bytes)
    ensures |h| == HASH_LEN
  {
    Output(Sha384(Ascii("RTP2-HS-TH1-v1") + (ch + sh)), HASH_LEN)
  }

  function Th2(ch: Bytes, sh: Bytes, cf: Bytes): (h: Bytes)
    ensures |h| == HASH_LEN
  {
    Output(Sha384(Ascii("RTP2-HS-TH2-v1") + (ch + (sh + cf))), HASH_LEN)
  }

  function Salt(ch: Bytes, sh: Bytes, cf: Bytes): (h: Bytes)
    ensures |h| == HASH_LEN
  {
    Output(Sha384(Ascii("RTP2-HYBRID-SALT-v1") + (ch + (sh + cf))), HASH_LEN)
  }

  function Ikm(ssX: Bytes, ssA: Bytes, ssB: Bytes): Bytes {
    BigEndian(|ssX|, 2) + ssX + (BigEndian(|ssA|, 2) + ssA) + (BigEndian(|ssB|, 2) + ssB)
  }

  datatype DerivedKeys = DerivedKeys(prk: Bytes, clientFinished: Bytes, serverFinished: Bytes, c2s: Bytes, s2c: Bytes,
                                     wrap: Bytes, resumption: Bytes)

  /** Everything after the extraction depends on its output and on TH2 only. */
  function Schedule(prk: Bytes, th2: Bytes): DerivedKeys {
    DerivedKeys(prk,
                Output(Expand(prk, Ascii("RTP2 client finished v1") + th2), HASH_LEN),
                Output(Expand(prk, Ascii("RTP2 server finished v1") + th2), HASH_LEN),
                Output(Expand(prk, Ascii("RTP2 control c2s v1") + th2), KEY_LEN),
                Output(Expand(prk, Ascii("RTP2 control s2c v1") + th2), KEY_LEN),
                Output(Expand(prk, Ascii("RTP2 transfer wrap v1") + th2), KEY_LEN),
                Output(Expand(prk, Ascii("RTP2 resumption v1") + th2), HASH_LEN))
  }

  function DeriveKeys(ch: Bytes, shBare: Bytes, cfBare: Bytes, th2: Bytes, ssX: Bytes, ssA: Bytes,
                      ssB: Bytes): DerivedKeys {
    Schedule(Output(Extract(Salt(ch, shBare, cfBare), Ikm(ssX, ssA, ssB)), HASH_LEN), th2)
  }

  function ClientMac(keys: DerivedKeys, th2: Bytes): (m: Bytes)
    ensures |m| == HASH_LEN
  {
    Output(Hmac(keys.clientFinished, th2), HASH_LEN)
  }

  function ServerMac(keys: DerivedKeys, th2: Bytes, clientMac: Bytes): (m: Bytes)
    ensures |m| == HASH_LEN
  {
    Output(Hmac(keys.serverFinished, Output(Sha384(th2 + clientMac), HASH_LEN)), HASH_LEN)
  }

  datatype Role = InitiatorRole | ResponderRole

  datatype SessionKeys = SessionKeys(role: Role, prk: Bytes, th2: Bytes, c2s: Bytes, s2c: Bytes, wrap: Bytes,
                                     resumption: Bytes,
                                     peer: DevicePublic, peerEndpoint: Bytes)

  function SessionOf(role: Role, keys: DerivedKeys, th2: Bytes, peer: DevicePublic, peerEndpoint: Bytes): SessionKeys {
    SessionKeys(role, keys.prk, th2, keys.c2s, keys.s2c, keys.wrap, keys.resumption, peer, peerEndpoint)
  }

  // --- The initiator, as functions of its state ---

  datatype InitiatorState =
    | AwaitServerHello(scalar: nat, kemSeed: nat, ch: Bytes, expectedPeer: Bytes)
    | AwaitServerFinish(keys: DerivedKeys, th2: Bytes, clientMac: Bytes, peer: DevicePublic, peerEndpoint: Bytes)
    | InitiatorDone
    | InitiatorFailed

  /** Random choices and outside facts of a step. */
  datatype Coins = Coins(scalar: nat, kemSeed: nat, kemCoin: nat, nonce: Bytes, signature: Option<nat>, now: U64,
                         zeroPoint: bool, keyAccepted: bool)

  function Hello(identity: DeviceIdentity, endpoint: Bytes, coins: Coins): (h: ClientHello)
    requires |endpoint| == KEY_LEN && |coins.nonce| == KEY_LEN
    ensures h.Sized()
  {
    ClientHello(PROTOCOL_MINOR, MODE_STANDALONE, Alpn(), [SUITE_ID], coins.nonce, XPoint(coins.scalar),
                KemKey(coins.kemSeed),
                true, 1, identity.Public(), endpoint, coins.now)
  }

  /** The secrets are agreed: what the initiator sends, and waits for. */
  function Commit(identity: DeviceIdentity, ch: Bytes, shBare: Bytes, shFull: Bytes, ctToB: Bytes, ssX: Bytes,
                  ssA: Bytes, ssB: Bytes,
                  coin: nat, peer: DevicePublic, peerEndpoint: Bytes): (Bytes, InitiatorState)
    requires |ctToB| == MLKEM_CIPHERTEXT_LEN
  {
    var cfBare := PutFinishBare(ctToB, []);
    var th2 := Th2(ch, shFull, cfBare);
    var keys := DeriveKeys(ch, shBare, cfBare, th2, ssX, ssA, ssB);
    var mac := ClientMac(keys, th2);
    var finish := ClientFinish(ctToB, Sign(identity.Public(), th2, coin), mac);
    (EncodeClientFinish(finish), AwaitServerFinish(keys, th2, mac, peer, peerEndpoint))
  }

  function Agree(identity: DeviceIdentity, s: InitiatorState, sh: ServerHello, shBare: Bytes, shFull: Bytes,
                 coins: Coins)
    : Result<(Bytes, InitiatorState), HandshakeError>
    requires s.AwaitServerHello?
  {
    var ssX :- XAgree(s.scalar, sh.exPk, coins.zeroPoint);
    var (ctToB, ssB) :- Encapsulate(sh.kemPk, coins.kemCoin, coins.keyAccepted);
    if coins.signature.None? then Err(InvalidSignature)
    else Ok(Commit(identity, s.ch, shBare, shFull, ctToB, ssX, Decapsulate(s.kemSeed, sh.ctToA), ssB,
                   coins.signature.value, sh.cert, sh.endpoint))
  }

  function AnswerTo(identity: DeviceIdentity, s: InitiatorState, sh: ServerHello,
                    coins: Coins): Result<(Bytes, InitiatorState), HandshakeError>
    requires s.AwaitServerHello? && sh.Sized() && sh.signature.Some?
  {
    if sh.minor != PROTOCOL_MINOR then Err(UnsupportedVersion)
    else if sh.mode != MODE_STANDALONE || sh.alpn != Alpn() then Err(PolicyViolation)
    else if sh.suite != SUITE_ID then Err(UnsupportedSuite)
    else if sh.endpoint != s.expectedPeer then Err(EndpointMismatch)
    else
      var bare := PutServerHello(sh, false, []);
      if !Verify(sh.cert, Th1(s.ch, bare), sh.signature.value) then Err(InvalidSignature)
      else Agree(identity, s, sh, bare, PutServerHello(sh, true, []), coins)
  }

  function Answer(identity: DeviceIdentity, s: InitiatorState, bytes: Bytes,
                  coins: Coins): Result<(Bytes, InitiatorState), HandshakeError>
    requires s.AwaitServerHello?
  {
    var sh :- DecodeServerHello(bytes);
    ServerHelloCanonical(bytes);
    AnswerTo(identity, s, sh, coins)
  }

  function OnServerHello(identity: DeviceIdentity, s: InitiatorState, bytes: Bytes,
                         coins: Coins): (Result<Bytes, HandshakeError>, InitiatorState) {
    if !s.AwaitServerHello? then (Err(State), InitiatorFailed)
    else
      match Answer(identity, s, bytes, coins)
      case Ok((finish, next)) => (Ok(finish), next)
      case Err(e) => (Err(e), InitiatorFailed)
  }

  function OnServerFinish(s: InitiatorState, bytes: Bytes): (Result<SessionKeys, HandshakeError>, InitiatorState) {
    if !s.AwaitServerFinish? then (Err(State), InitiatorFailed)
    else
      match DecodeServerFinish(bytes)
      case Err(e) => (Err(e), InitiatorFailed)
      case Ok(mac) =>
        if mac != ServerMac(s.keys, s.th2, s.clientMac) then (Err(InvalidMac), InitiatorFailed)
        else (Ok(SessionOf(InitiatorRole, s.keys, s.th2, s.peer, s.peerEndpoint)), InitiatorDone)
  }

  // --- The responder ---

  datatype ResponderState =
    | AwaitClientHello
    | AwaitClientFinish(scalar: nat, kemSeed: nat, ssA: Bytes, ch: Bytes, shBare: Bytes, shFull: Bytes,
                        clientExPk: Bytes, clientCert: DevicePublic, clientEndpoint: Bytes)
    | ResponderDone
    | ResponderFailed

  function Apart(a: nat, b: nat): nat {
    if a < b then b - a else a - b
  }

  /** The checks on a ClientHello before the replay cache is asked. */
  function Screen(bytes: Bytes, observed: Bytes, now: U64): Result<ClientHello, HandshakeError> {
    var ch :- DecodeClientHello(bytes);
    if ch.alpn != Alpn() then Err(PolicyViolation)
    else if ch.mode != MODE_STANDALONE then Err(PolicyViolation)
    else if SUITE_ID !in ch.suites then Err(UnsupportedSuite)
    else if !ch.pqcRequired || ch.level < 1 then Err(PolicyViolation)
    else if ch.endpoint != observed then Err(EndpointMismatch)
    else if Apart(ch.timestamp, now) > TIMESTAMP_WINDOW then Err(Replay)
    else Ok(ch)
  }

  /** The reply to a hello that passed, as far as it is decided before signing. */
  function Reply(identity: DeviceIdentity, endpoint: Bytes, ch: ClientHello, ctToA: Bytes,
                 coins: Coins): (sh: ServerHello)
    requires |endpoint| == KEY_LEN && |coins.nonce| == KEY_LEN && |ctToA| == MLKEM_CIPHERTEXT_LEN
    ensures sh.Sized() && sh.signature.None?
  {
    ServerHello(if ch.minor < PROTOCOL_MINOR then ch.minor else PROTOCOL_MINOR,
                MODE_STANDALONE, Alpn(), SUITE_ID, coins.nonce,
                XPoint(coins.scalar), KemKey(coins.kemSeed), ctToA, identity.Public(), endpoint, None)
  }

  function Signed(identity: DeviceIdentity, sh: ServerHello, th1: Bytes, coin: nat): (signed: ServerHello)
    requires sh.Sized()
    ensures signed.Sized() && signed.signature.Some?
  {
    sh.(signature := Some(Sign(identity.Public(), th1, coin)))
  }

  function OfferWith(identity: DeviceIdentity, bytes: Bytes, ch: ClientHello, sh: ServerHello, ssA: Bytes,
                     coins: Coins): (Bytes, ResponderState)
    requires sh.Sized() && coins.signature.Some?
  {
    var bare := PutServerHello(sh, false, []);
    var full := PutServerHello(Signed(identity, sh, Th1(bytes, bare), coins.signature.value), true, []);
    (full, AwaitClientFinish(coins.scalar, coins.kemSeed, ssA, bytes, bare, full, ch.exPk, ch.cert, ch.endpoint))
  }

  function Offer(identity: DeviceIdentity, endpoint: Bytes, bytes: Bytes, ch: ClientHello,
                 coins: Coins): Result<(Bytes, ResponderState), HandshakeError>
    requires |endpoint| == KEY_LEN && |coins.nonce| == KEY_LEN
  {
    var (ctToA, ssA) :- Encapsulate(ch.kemPk, coins.kemCoin, coins.keyAccepted);
    if coins.signature.None? then Err(InvalidSignature)
    else Ok(OfferWith(identity, bytes, ch, Reply(identity, endpoint, ch, ctToA, coins), ssA, coins))
  }

  /** Also gives the replay cache's new queue. */
  function OnClientHello(identity: DeviceIdentity, endpoint: Bytes, s: ResponderState, bytes: Bytes, observed: Bytes,
                         seen: seq<Key>, coins: Coins): (Result<Bytes, HandshakeError>, ResponderState, seq<Key>)
    requires |endpoint| == KEY_LEN && |coins.nonce| == KEY_LEN
  {
    if !s.AwaitClientHello? then (Err(State), ResponderFailed, seen)
    else
      match Screen(bytes, observed, coins.now)
      case Err(e) => (Err(e), ResponderFailed, seen)
      case Ok(ch) =>
        var (fresh', seen') := Remember(seen, ch.cert.deviceId + ch.nonce);
        if !fresh' then (Err(Replay), ResponderFailed, seen')
        else
          match Offer(identity, endpoint, bytes, ch, coins)
          case Ok((full, next)) => (Ok(full), next, seen')
          case Err(e) => (Err(e), ResponderFailed, seen')
  }

  function ConfirmWith(s: ResponderState, cf: ClientFinish, bare: Bytes, th2: Bytes,
                       coins: Coins): Result<(Bytes, SessionKeys), HandshakeError>
    requires s.AwaitClientFinish?
  {
    if !Verify(s.clientCert, th2, cf.signature) then Err(InvalidSignature)
    else
      var ssX :- XAgree(s.scalar, s.clientExPk, coins.zeroPoint);
      var keys := DeriveKeys(s.ch, s.shBare, bare, th2, ssX, s.ssA, Decapsulate(s.kemSeed, cf.ctToB));
      if cf.mac != ClientMac(keys, th2) then Err(InvalidMac)
      else Ok((EncodeServerFinish(ServerMac(keys, th2, cf.mac)),
               SessionOf(ResponderRole, keys, th2, s.clientCert, s.clientEndpoint)))
  }

  function Confirm(s: ResponderState, bytes: Bytes, coins: Coins): Result<(Bytes, SessionKeys), HandshakeError>
    requires s.AwaitClientFinish?
  {
    var cf :- DecodeClientFinish(bytes);
    ClientFinishCanonical(bytes);
    var bare := PutFinishBare(cf.ctToB, []);
    ConfirmWith(s, cf, bare, Th2(s.ch, s.shFull, bare), coins)
  }

  function OnClientFinish(s: ResponderState, bytes: Bytes,
                          coins: Coins): (Result<(Bytes, SessionKeys), HandshakeError>, ResponderState) {
    if !s.AwaitClientFinish? then (Err(State), ResponderFailed)
    else
      match Confirm(s, bytes, coins)
      case Ok(done) => (Ok(done), ResponderDone)
      case Err(e) => (Err(e), ResponderFailed)
  }

  // --- The objects ---

  class Initiator {
    const identity: DeviceIdentity
    var state: InitiatorState

    /** `start`: builds the ClientHello, which the caller sends. */
    constructor Start(identity: DeviceIdentity, endpoint: Bytes, expectedPeer: Bytes, coins: Coins)
      requires |endpoint| == KEY_LEN && |coins.nonce| == KEY_LEN
      ensures this.identity == identity
      ensures state == AwaitServerHello(coins.scalar, coins.kemSeed,
                                        PutClientHello(Hello(identity, endpoint, coins), []), expectedPeer)
    {
      hide PutClientHello, Hello;
      this.identity := identity;
      state := AwaitServerHello(coins.scalar, coins.kemSeed, PutClientHello(Hello(identity, endpoint, coins), []),
                                expectedPeer);
    }

    /** The state is taken out first and only put back on success. */
    method HandleServerHello(bytes: Bytes, coins: Coins) returns (r: Result<Bytes, HandshakeError>)
      modifies this
      ensures (r, state) == OnServerHello(identity, old(state), bytes, coins)
    {
      hide DecodeServerHello, Verify, XAgree, Encapsulate, Commit, PutServerHello, Th1;
      var taken := state;
      state := InitiatorFailed;
      if !taken.AwaitServerHello? {
        return Err(State);
      }
      var sh :- DecodeServerHello(bytes);
      if sh.minor != PROTOCOL_MINOR {
        return Err(UnsupportedVersion);
      }
      if sh.mode != MODE_STANDALONE || sh.alpn != Alpn() {
        return Err(PolicyViolation);
      }
      if sh.suite != SUITE_ID {
        return Err(UnsupportedSuite);
      }
      if sh.endpoint != taken.expectedPeer {
        return Err(EndpointMismatch);
      }
      ServerHelloCanonical(bytes);
      var bare := PutServerHello(sh, false, []);
      if !Verify(sh.cert, Th1(taken.ch, bare), sh.signature.value) {
        return Err(InvalidSignature);
      }
      var ssX :- XAgree(taken.scalar, sh.exPk, coins.zeroPoint);
      var ssA := Decapsulate(taken.kemSeed, sh.ctToA);
      var sealed :- Encapsulate(sh.kemPk, coins.kemCoin, coins.keyAccepted);
      var full := PutServerHello(sh, true, []);
      if coins.signature.None? {
        return Err(InvalidSignature);
      }
      var committed := Commit(identity, taken.ch, bare, full, sealed.0, ssX, ssA, sealed.1, coins.signature.value,
                              sh.cert, sh.endpoint);
      state := committed.1;
      return Ok(committed.0);
    }

    method HandleServerFinish(bytes: Bytes) returns (r: Result<SessionKeys, HandshakeError>)
      modifies this
      ensures (r, state) == OnServerFinish(old(state), bytes)
    {
      hide DecodeServerFinish, ServerMac;
      var taken := state;
      state := InitiatorFailed;
      if !taken.AwaitServerFinish? {
        return Err(State);
      }
      var mac :- DecodeServerFinish(bytes);
      if mac != ServerMac(taken.keys, taken.th2, taken.clientMac) {
        return Err(InvalidMac);
      }
      state := InitiatorDone;
      return Ok(SessionOf(InitiatorRole, taken.keys, taken.th2, taken.peer, taken.peerEndpoint));
    }
  }

  class Responder {
    const identity: DeviceIdentity
    const endpoint: Bytes
    var state: ResponderState

    constructor (identity: DeviceIdentity, endpoint: Bytes)
      ensures this.identity == identity && this.endpoint == endpoint && state == AwaitClientHello
    {
      this.identity := identity;
      this.endpoint := endpoint;
      state := AwaitClientHello;
    }

    method HandleClientHello(bytes: Bytes, observed: Bytes, cache: Cache, coins: Coins)
      returns (r: Result<Bytes, HandshakeError>)
      requires |endpoint| == KEY_LEN && |coins.nonce| == KEY_LEN && cache.Valid()
      modifies this, cache
      ensures cache.Valid()
      ensures (r, state, cache.order) ==
              OnClientHello(identity, endpoint, old(state), bytes, observed, old(cache.order), coins)
    {
      hide DecodeClientHello, Encapsulate, PutServerHello, Signed, Reply, Th1, Remember, Distinct;
      var taken := state;
      state := ResponderFailed;
      if !taken.AwaitClientHello? {
        return Err(State);
      }
      var ch :- DecodeClientHello(bytes);
      if ch.alpn != Alpn() {
        return Err(PolicyViolation);
      }
      if ch.mode != MODE_STANDALONE {
        return Err(PolicyViolation);
      }
      if SUITE_ID !in ch.suites {
        return Err(UnsupportedSuite);
      }
      if !ch.pqcRequired || ch.level < 1 {
        return Err(PolicyViolation);
      }
      if ch.endpoint != observed {
        return Err(EndpointMismatch);
      }
      if Apart(ch.timestamp, coins.now) > TIMESTAMP_WINDOW {
        return Err(Replay);
      }
      var fresh' := cache.CheckAndInsert(ch.cert.deviceId, ch.nonce);
      if !fresh' {
        return Err(Replay);
      }
      var sealed :- Encapsulate(ch.kemPk, coins.kemCoin, coins.keyAccepted);
      var sh := Reply(identity, endpoint, ch, sealed.0, coins);
      var bare := PutServerHello(sh, false, []);
      if coins.signature.None? {
        return Err(InvalidSignature);
      }
      var full := PutServerHello(Signed(identity, sh, Th1(bytes, bare), coins.signature.value), true, []);
      state := AwaitClientFinish(coins.scalar, coins.kemSeed, sealed.1, bytes, bare, full, ch.exPk, ch.cert,
                                 ch.endpoint);
      return Ok(full);
    }

    method HandleClientFinish(bytes: Bytes, coins: Coins) returns (r: Result<(Bytes, SessionKeys), HandshakeError>)
      modifies this
      ensures (r, state) == OnClientFinish(old(state), bytes, coins)
    {
      hide DecodeClientFinish, EncodeClientFinish, PutFinishBare, Verify, XAgree, DeriveKeys, Decapsulate, ClientMac,
           ServerMac, EncodeServerFinish, Th2;
      var taken := state;
      state := ResponderFailed;
      if !taken.AwaitClientFinish? {
        return Err(State);
      }
      var cf :- DecodeClientFinish(bytes);
      ClientFinishCanonical(bytes);
      var bare := PutFinishBare(cf.ctToB, []);
      var th2 := Th2(taken.ch, taken.shFull, bare);
      if !Verify(taken.clientCert, th2, cf.signature) {
        return Err(InvalidSignature);
      }
      var ssX :- XAgree(taken.scalar, taken.clientExPk, coins.zeroPoint);
      var ssB := Decapsulate(taken.kemSeed, cf.ctToB);
      var keys := DeriveKeys(taken.ch, taken.shBare, bare, th2, ssX, taken.ssA, ssB);
      if cf.mac != ClientMac(keys, th2) {
        return Err(InvalidMac);
      }
      var reply := EncodeServerFinish(ServerMac(keys, th2, cf.mac));
      state := ResponderDone;
      return Ok((reply, SessionOf(ResponderRole, keys, th2, taken.clientCert, taken.clientEndpoint)));
    }
  }
}
