/**
 Exactly what each side of the handshake accepts (`handshake.rs`), in terms of the messages and
 of the signatures, MACs and digests they must hold.
 */
module Authentication {
  import opened Octets
  import opened Cbor
  import opened Messages
  import opened ReplayCache
  import opened Handshake
  import opened Agreement

  // --- Signatures ---

  /** A signature is of one message and under one pair of keys. */
  lemma SignatureFixes(d: DevicePublic, message: Bytes, d': DevicePublic, message': Bytes, s: HybridSignature)
    requires SignedBy(d, message, s) && SignedBy(d', message', s)
    ensures message == message' && d.ed25519 == d'.ed25519 && d.mldsa == d'.mldsa
  {
    var coin :| SignedWith(d, message, s, coin);
    var coin' :| SignedWith(d', message', s, coin');
    OutputInjective(EdSignature(d.ed25519, message), EdSignature(d'.ed25519, message'), ED_SIGNATURE_LEN);
    OutputInjective(MlDsaSignature(d.mldsa, message, coin), MlDsaSignature(d'.mldsa, message', coin'),
                    MLDSA_SIGNATURE_LEN);
  }

  // --- The reply an initiator accepts ---

  /** The digest a responder signs: the hello as it was sent, then the reply without its signature. */
  ghost function ReplyDigest(ch: Bytes, sh: ServerHello): Bytes
    requires sh.Sized()
  {
    Output(Sha384(Ascii("RTP2-HS-TH1-v1") + (ch + PutServerHello(sh, false, []))), 48)
  }

  ghost predicate IsPoint(point: Bytes) {
    exists scalar :: point == XPoint(scalar)
  }

  /** A key agreement with this point, and an encapsulation to this key, succeed. */
  ghost predicate Keyable(exPk: Bytes, kemPk: Bytes, coins: Coins) {
    (IsPoint(exPk) || !coins.zeroPoint) && (IsKemKey(kemPk) || coins.keyAccepted)
  }

  ghost predicate ReplyFits(s: InitiatorState, bytes: Bytes, sh: ServerHello) {
    && s.AwaitServerHello? && sh.Sized() && sh.signature.Some? && bytes == PutServerHello(sh, true, [])
    && sh.minor == PROTOCOL_MINOR && sh.mode == MODE_STANDALONE && sh.alpn == Alpn() && sh.suite == SUITE_ID
    && sh.endpoint == s.expectedPeer
    && SignedBy(sh.cert, ReplyDigest(s.ch, sh), sh.signature.value)
  }

  /** X25519 gives a usable secret with the public key of any scalar, and with another point unless it gives zero. */
  lemma AgreesIff(scalar: nat, point: Bytes, zero: bool)
    ensures XAgree(scalar, point, zero).Ok? <==> IsPoint(point) || !zero
  {
  }

  /** The decoder reads one reply from the bytes, so what fits is what was decoded. */
  lemma ReplyDecodes(bytes: Bytes, sh: ServerHello)
    requires sh.Sized() && sh.signature.Some?
    ensures bytes == PutServerHello(sh, true, []) <==> DecodeServerHello(bytes) == Ok(sh)
  {
    hide PutServerHello, DecodeServerHello, ServerHello.Sized;
    ServerHelloReads(sh);
    if DecodeServerHello(bytes) == Ok(sh) {
      ServerHelloCanonical(bytes);
    }
  }

  lemma AnswersIff(identity: DeviceIdentity, s: InitiatorState, sh: ServerHello, coins: Coins)
    requires s.AwaitServerHello? && sh.Sized() && sh.signature.Some?
    ensures AnswerTo(identity, s, sh, coins).Ok? <==>
            ReplyFits(s, PutServerHello(sh, true, []), sh) && Keyable(sh.exPk, sh.kemPk, coins) && coins.signature.Some?
  {
    hide PutServerHello, Commit, Verify, SignedBy, XAgree, Alpn, Ascii, ServerHello.Sized;
    VerifyIs(sh.cert, Th1(s.ch, PutServerHello(sh, false, [])), sh.signature.value);
    AgreesIff(s.scalar, sh.exPk, coins.zeroPoint);
  }

  /**
   An initiator answers exactly a well-formed reply of the protocol from the device it dialled,
   signed by the keys in it over this initiator's own hello and the reply.
   */
  lemma ReplyAcceptedIff(identity: DeviceIdentity, s: InitiatorState, bytes: Bytes, coins: Coins)
    ensures OnServerHello(identity, s, bytes, coins).0.Ok? <==>
            exists sh :: ReplyFits(s, bytes, sh) && Keyable(sh.exPk, sh.kemPk, coins) && coins.signature.Some?
  {
    hide PutServerHello, DecodeServerHello, AnswerTo, SignedBy, Keyable, Alpn, ServerHello.Sized, ReplyDigest;
    if s.AwaitServerHello? {
      forall sh: ServerHello | sh.Sized() && sh.signature.Some?
        ensures bytes == PutServerHello(sh, true, []) <==> DecodeServerHello(bytes) == Ok(sh)
        ensures AnswerTo(identity, s, sh, coins).Ok? <==>
                ReplyFits(s, PutServerHello(sh, true, []), sh) && Keyable(sh.exPk, sh.kemPk, coins) &&
                coins.signature.Some?
      {
        ReplyDecodes(bytes, sh);
        AnswersIff(identity, s, sh, coins);
      }
      if DecodeServerHello(bytes).Ok? {
        ServerHelloCanonical(bytes);
      }
    }
  }

  // --- The hello a responder accepts ---

  /** The clocks are at most five minutes apart, and the device did not send this nonce lately. */
  ghost predicate Timely(ch: ClientHello, now: U64, seen: seq<Key>) {
    ch.timestamp <= now + 300 && now <= ch.timestamp + 300 && ch.cert.deviceId + ch.nonce !in seen
  }

  ghost predicate HelloFits(bytes: Bytes, observed: Bytes, seen: seq<Key>, now: U64, ch: ClientHello) {
    && ch.Sized() && bytes == PutClientHello(ch, [])
    && ch.alpn == Alpn() && ch.mode == MODE_STANDALONE && SUITE_ID in ch.suites && ch.pqcRequired && ch.level >= 1
    && ch.endpoint == observed && Timely(ch, now, seen)
  }

  lemma HelloDecodes(bytes: Bytes, ch: ClientHello)
    requires ch.Sized()
    ensures bytes == PutClientHello(ch, []) <==> DecodeClientHello(bytes) == Ok(ch)
  {
    hide PutClientHello, DecodeClientHello, ClientHello.Sized;
    ClientHelloReads(ch);
    if DecodeClientHello(bytes) == Ok(ch) {
      ClientHelloCanonical(bytes);
    }
  }

  /**
   A responder answers exactly a well-formed hello of the protocol from the endpoint it sees,
   that is timely and new to it; and it signs the hello with its reply.
   */
  lemma HelloAcceptedIff(identity: DeviceIdentity, endpoint: Bytes, s: ResponderState, bytes: Bytes, observed: Bytes,
                         seen: seq<Key>, coins: Coins)
    requires |endpoint| == KEY_LEN && |coins.nonce| == KEY_LEN
    ensures OnClientHello(identity, endpoint, s, bytes, observed, seen, coins).0.Ok? <==>
            && s.AwaitClientHello? && coins.signature.Some?
            && exists ch :: HelloFits(bytes, observed, seen, coins.now, ch) && (IsKemKey(ch.kemPk) || coins.keyAccepted)
  {
    hide PutClientHello, DecodeClientHello, OfferWith, Reply, Alpn, ClientHello.Sized, IsKemKey;
    forall ch: ClientHello | ch.Sized()
      ensures bytes == PutClientHello(ch, []) <==> DecodeClientHello(bytes) == Ok(ch)
    {
      HelloDecodes(bytes, ch);
    }
    if DecodeClientHello(bytes).Ok? {
      ClientHelloCanonical(bytes);
      var ch := DecodeClientHello(bytes).value;
      assert HelloFits(bytes, observed, seen, coins.now, ch) <==>
             Screen(bytes, observed, coins.now) == Ok(ch) && Remember(seen, ch.cert.deviceId + ch.nonce).0;
    }
  }

  /**
   The reply that goes out is signed by this device, over the hello that came in. It settles on
   the lower of the two minor versions and on the one mode, suite and application protocol.
   */
  lemma ReplyIsSigned(identity: DeviceIdentity, endpoint: Bytes, s: ResponderState, bytes: Bytes, observed: Bytes,
                      seen: seq<Key>, coins: Coins) returns (ch: ClientHello, sh: ServerHello)
    requires |endpoint| == KEY_LEN && |coins.nonce| == KEY_LEN
    requires OnClientHello(identity, endpoint, s, bytes, observed, seen, coins).0.Ok?
    ensures sh.Sized() && sh.signature.Some? && sh.cert == identity.Public() && sh.endpoint == endpoint
    ensures OnClientHello(identity, endpoint, s, bytes, observed, seen, coins).0 == Ok(PutServerHello(sh, true, []))
    ensures SignedBy(identity.Public(), ReplyDigest(bytes, sh), sh.signature.value)
    ensures ch.Sized() && bytes == PutClientHello(ch, [])
    ensures sh.minor <= ch.minor && sh.minor <= PROTOCOL_MINOR && (sh.minor == ch.minor || sh.minor == PROTOCOL_MINOR)
    ensures sh.mode == MODE_STANDALONE && sh.alpn == Alpn() && sh.suite == SUITE_ID && sh.nonce == coins.nonce
  {
    hide PutServerHello, PutClientHello, DecodeClientHello, Encapsulate, Remember, Alpn, ClientHello.Sized, Sign,
         DeviceIdentity.Public, SignedBy, Ascii;
    ClientHelloCanonical(bytes);
    ch := DecodeClientHello(bytes).value;
    var bare := Reply(identity, endpoint, ch, Encapsulate(ch.kemPk, coins.kemCoin, coins.keyAccepted).value.0, coins);
    var digest := Th1(bytes, PutServerHello(bare, false, []));
    sh := Signed(identity, bare, digest, coins.signature.value);
    BareIgnoresSignature(bare, sh.signature);
    SignsItself(identity.Public(), digest, coins.signature.value);
  }

  lemma SignsItself(d: DevicePublic, message: Bytes, coin: nat)
    ensures SignedBy(d, message, Sign(d, message, coin))
  {
    assert SignedWith(d, message, Sign(d, message, coin), coin);
  }

  // --- The finish a responder accepts ---

  /** The digest both sides commit to: hello, signed reply and ciphertext. */
  ghost function FinishDigest(ch: Bytes, sh: Bytes, ctToB: Bytes): Bytes
    requires |ctToB| == MLKEM_CIPHERTEXT_LEN
  {
    Output(Sha384(Ascii("RTP2-HS-TH2-v1") + (ch + (sh + PutFinishBare(ctToB, [])))), 48)
  }

  /** The MAC key that the agreed secrets and the transcript give the client. */
  ghost function FinishKey(s: ResponderState, ctToB: Bytes, ssX: Bytes): Bytes
    requires s.AwaitClientFinish? && |ctToB| == MLKEM_CIPHERTEXT_LEN
  {
    var salt := Salt(s.ch, s.shBare, PutFinishBare(ctToB, []));
    var prk := Output(Extract(salt, Ikm(ssX, s.ssA, Decapsulate(s.kemSeed, ctToB))), 48);
    Output(Expand(prk, Ascii("RTP2 client finished v1") + FinishDigest(s.ch, s.shFull, ctToB)), 48)
  }

  ghost predicate FinishFits(s: ResponderState, bytes: Bytes, ssX: Bytes, cf: ClientFinish) {
    && s.AwaitClientFinish? && cf.Sized() && bytes == EncodeClientFinish(cf)
    && SignedBy(s.clientCert, FinishDigest(s.ch, s.shFull, cf.ctToB), cf.signature)
    && cf.mac == Output(Hmac(FinishKey(s, cf.ctToB, ssX), FinishDigest(s.ch, s.shFull, cf.ctToB)), 48)
  }

  lemma FinishDecodes(bytes: Bytes, cf: ClientFinish)
    requires cf.Sized()
    ensures bytes == EncodeClientFinish(cf) <==> DecodeClientFinish(bytes) == Ok(cf)
  {
    hide EncodeClientFinish, DecodeClientFinish, ClientFinish.Sized;
    ClientFinishReads(cf);
    if DecodeClientFinish(bytes) == Ok(cf) {
      ClientFinishCanonical(bytes);
    }
  }

  lemma ConfirmsIff(s: ResponderState, cf: ClientFinish, coins: Coins)
    requires s.AwaitClientFinish? && cf.Sized()
    ensures var bare := PutFinishBare(cf.ctToB, []);
            ConfirmWith(s, cf, bare, Th2(s.ch, s.shFull, bare), coins).Ok? <==>
            && XAgree(s.scalar, s.clientExPk, coins.zeroPoint).Ok?
            && FinishFits(s, EncodeClientFinish(cf), XAgree(s.scalar, s.clientExPk, coins.zeroPoint).value, cf)
  {
    hide PutFinishBare, EncodeClientFinish, EncodeServerFinish, Verify, SignedBy, XAgree, Decapsulate, Salt, Ikm, Ascii,
         ServerMac;
    VerifyIs(s.clientCert, Th2(s.ch, s.shFull, PutFinishBare(cf.ctToB, [])), cf.signature);
  }

  /**
   A responder confirms exactly a well-formed finish that the client's certificate signed over
   this exchange, with the MAC that the agreed secrets give.
   */
  lemma FinishAcceptedIff(s: ResponderState, bytes: Bytes, coins: Coins)
    ensures OnClientFinish(s, bytes, coins).0.Ok? <==>
            && s.AwaitClientFinish? && XAgree(s.scalar, s.clientExPk, coins.zeroPoint).Ok?
            && exists cf :: FinishFits(s, bytes, XAgree(s.scalar, s.clientExPk, coins.zeroPoint).value, cf)
  {
    hide PutFinishBare, EncodeClientFinish, DecodeClientFinish, ConfirmWith, XAgree, SignedBy, FinishKey, FinishDigest,
         Th2;
    if s.AwaitClientFinish? {
      forall cf: ClientFinish | cf.Sized()
        ensures bytes == EncodeClientFinish(cf) <==> DecodeClientFinish(bytes) == Ok(cf)
        ensures var bare := PutFinishBare(cf.ctToB, []);
                ConfirmWith(s, cf, bare, Th2(s.ch, s.shFull, bare), coins).Ok? <==>
                && XAgree(s.scalar, s.clientExPk, coins.zeroPoint).Ok?
                && FinishFits(s, EncodeClientFinish(cf), XAgree(s.scalar, s.clientExPk, coins.zeroPoint).value, cf)
      {
        FinishDecodes(bytes, cf);
        ConfirmsIff(s, cf, coins);
      }
      if DecodeClientFinish(bytes).Ok? {
        ClientFinishCanonical(bytes);
      }
    }
  }
}
