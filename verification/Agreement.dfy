/**
 What the handshake guarantees between any two sessions, whatever messages reached them.
 */
module Agreement {
  import opened Octets
  import opened Cbor
  import opened Messages
  import opened ReplayCache
  import opened Handshake

  // --- Transcripts split uniquely ---

  lemma DomainSplits(domain: Bytes, x: Bytes, y: Bytes)
    requires Output(Sha384(domain + x), HASH_LEN) == Output(Sha384(domain + y), HASH_LEN)
    ensures x == y
  {
    OutputInjective(Sha384(domain + x), Sha384(domain + y), HASH_LEN);
    SplitAt(domain, x, domain, y);
  }

  /** A hello, a reply and a finish put together can be taken apart in one way only. */
  lemma MessagesSplit(a: ClientHello, s: ServerHello, p: bool, c: Bytes, b: ClientHello, t: ServerHello, q: bool,
                      d: Bytes)
    requires a.Sized() && b.Sized() && s.Sized() && t.Sized() && (p ==> s.signature.Some?) && (q ==> t.signature.Some?)
    requires |c| == |d| == MLKEM_CIPHERTEXT_LEN
    requires PutClientHello(a, []) + (PutServerHello(s, p, []) + PutFinishBare(c, []))
          == PutClientHello(b, []) + (PutServerHello(t, q, []) + PutFinishBare(d, []))
    ensures a == b && p == q && Carried(s, p) == Carried(t, p) && c == d
  {
    hide PutClientHello, PutServerHello, PutFinishBare;
    var u, v := PutServerHello(s, p, []) + PutFinishBare(c, []), PutServerHello(t, q, []) + PutFinishBare(d, []);
    ClientHelloAppends(a, u);
    ClientHelloAppends(b, v);
    ClientHelloPeels(a, u, b, v);
    ServerHelloAppends(s, p, PutFinishBare(c, []));
    ServerHelloAppends(t, q, PutFinishBare(d, []));
    ServerHelloPeels(s, p, PutFinishBare(c, []), t, q, PutFinishBare(d, []));
    FinishPeels(c, [], d, []);
  }

  /** Equal TH1: the same hello and the same reply, up to its signature. */
  lemma Th1Splits(a: ClientHello, s: ServerHello, b: ClientHello, t: ServerHello)
    requires a.Sized() && b.Sized() && s.Sized() && t.Sized()
    requires Th1(PutClientHello(a, []), PutServerHello(s, false, [])) ==
             Th1(PutClientHello(b, []), PutServerHello(t, false, []))
    ensures a == b && s.(signature := None) == t.(signature := None)
  {
    hide PutClientHello, PutServerHello, Ascii;
    var u, v := PutServerHello(s, false, []), PutServerHello(t, false, []);
    DomainSplits(Ascii("RTP2-HS-TH1-v1"), PutClientHello(a, []) + u, PutClientHello(b, []) + v);
    ClientHelloAppends(a, u);
    ClientHelloAppends(b, v);
    ClientHelloPeels(a, u, b, v);
    ServerHelloPeels(s, false, [], t, false, []);
  }

  /** Equal TH2: the same three messages, the reply's signature included. */
  lemma Th2Splits(a: ClientHello, s: ServerHello, c: Bytes, b: ClientHello, t: ServerHello, d: Bytes)
    requires a.Sized() && b.Sized() && s.Sized() && t.Sized() && s.signature.Some? && t.signature.Some?
    requires |c| == |d| == MLKEM_CIPHERTEXT_LEN
    requires Th2(PutClientHello(a, []), PutServerHello(s, true, []), PutFinishBare(c, []))
          == Th2(PutClientHello(b, []), PutServerHello(t, true, []), PutFinishBare(d, []))
    ensures a == b && s == t && c == d
  {
    hide PutClientHello, PutServerHello, PutFinishBare, Ascii;
    DomainSplits(Ascii("RTP2-HS-TH2-v1"), PutClientHello(a, []) + (PutServerHello(s, true, []) + PutFinishBare(c, [])),
                 PutClientHello(b, []) + (PutServerHello(t, true, []) + PutFinishBare(d, [])));
    MessagesSplit(a, s, true, c, b, t, true, d);
  }

  /** Equal salts: the same messages up to the reply's signature. */
  lemma SaltSplits(a: ClientHello, s: ServerHello, c: Bytes, b: ClientHello, t: ServerHello, d: Bytes)
    requires a.Sized() && b.Sized() && s.Sized() && t.Sized() && |c| == |d| == MLKEM_CIPHERTEXT_LEN
    requires Salt(PutClientHello(a, []), PutServerHello(s, false, []), PutFinishBare(c, []))
          == Salt(PutClientHello(b, []), PutServerHello(t, false, []), PutFinishBare(d, []))
    ensures a == b && s.(signature := None) == t.(signature := None) && c == d
  {
    hide PutClientHello, PutServerHello, PutFinishBare, Ascii;
    DomainSplits(Ascii("RTP2-HYBRID-SALT-v1"),
                 PutClientHello(a, []) + (PutServerHello(s, false, []) + PutFinishBare(c, [])),
                 PutClientHello(b, []) + (PutServerHello(t, false, []) + PutFinishBare(d, [])));
    MessagesSplit(a, s, false, c, b, t, false, d);
  }

  /** The three secrets can be read off the key material. */
  lemma IkmSplits(x: Bytes, a: Bytes, b: Bytes, x': Bytes, a': Bytes, b': Bytes)
    requires |x| == |a| == |b| == KEY_LEN && |x'| == |a'| == |b'| == KEY_LEN && Ikm(x, a, b) == Ikm(x', a', b')
    ensures x == x' && a == a' && b == b'
  {
    hide BigEndian;
    var n := BigEndian(KEY_LEN, 2);
    SplitAt(n + x + (n + a), n + b, n + x' + (n + a'), n + b');
    SplitAt(n + x, n + a, n + x', n + a');
    SplitAt(n, x, n, x');
    SplitAt(n, a, n, a');
    SplitAt(n, b, n, b');
  }

  // --- What each side's state says ---

  /** After a reply is accepted: it is canonical, from the dialled endpoint, and everything kept derives from it. */
  lemma InitiatorHolds(identity: DeviceIdentity, s: InitiatorState, bytes: Bytes, coins: Coins)
    returns (sh: ServerHello, ctToB: Bytes, prk: Bytes)
    requires s.AwaitServerHello? && OnServerHello(identity, s, bytes, coins).0.Ok?
    ensures sh.Sized() && sh.signature.Some? && bytes == PutServerHello(sh, true, []) && sh.endpoint == s.expectedPeer
    ensures |ctToB| == MLKEM_CIPHERTEXT_LEN && |prk| == HASH_LEN
    ensures var next := OnServerHello(identity, s, bytes, coins).1;
            && next.AwaitServerFinish?
            && next.th2 == Th2(s.ch, bytes, PutFinishBare(ctToB, []))
            && next.keys == Schedule(prk, next.th2)
            && next.clientMac == ClientMac(next.keys, next.th2)
            && next.peer == sh.cert && next.peerEndpoint == sh.endpoint
  {
    hide DecodeServerHello, PutServerHello, PutFinishBare, Verify, XAgree, Encapsulate, Decapsulate, Schedule, Th1,
         Th2, Salt, Ikm, ClientMac, EncodeClientFinish, Sign;
    ServerHelloCanonical(bytes);
    sh := DecodeServerHello(bytes).value;
    var sealed := Encapsulate(sh.kemPk, coins.kemCoin, coins.keyAccepted).value;
    var ssX := XAgree(s.scalar, sh.exPk, coins.zeroPoint).value;
    ctToB := sealed.0;
    prk := Output(Extract(Salt(s.ch, PutServerHello(sh, false, []), PutFinishBare(ctToB, [])),
                          Ikm(ssX, Decapsulate(s.kemSeed, sh.ctToA), sealed.1)), HASH_LEN);
  }

  /** After a hello is answered: it was canonical and from the observed endpoint, and the reply names this device. */
  lemma ResponderOffers(identity: DeviceIdentity, endpoint: Bytes, s: ResponderState, bytes: Bytes, observed: Bytes,
                        seen: seq<Key>, coins: Coins)
    returns (ch: ClientHello, sh: ServerHello)
    requires |endpoint| == KEY_LEN && |coins.nonce| == KEY_LEN
    requires OnClientHello(identity, endpoint, s, bytes, observed, seen, coins).0.Ok?
    ensures ch.Sized() && bytes == PutClientHello(ch, []) && ch.endpoint == observed
    ensures sh.Sized() && sh.signature.Some? && sh.cert == identity.Public() && sh.endpoint == endpoint
    ensures var next := OnClientHello(identity, endpoint, s, bytes, observed, seen, coins).1;
            && next.AwaitClientFinish? && next.ch == bytes && next.shFull == PutServerHello(sh, true, [])
            && next.clientCert == ch.cert && next.clientEndpoint == ch.endpoint
            && OnClientHello(identity, endpoint, s, bytes, observed, seen, coins).0.value == next.shFull
  {
    hide DecodeClientHello, PutClientHello, PutServerHello, Encapsulate, Th1, Remember, Sign, Alpn;
    ClientHelloCanonical(bytes);
    ch := DecodeClientHello(bytes).value;
    var sealed := Encapsulate(ch.kemPk, coins.kemCoin, coins.keyAccepted).value;
    var bare := Reply(identity, endpoint, ch, sealed.0, coins);
    sh := Signed(identity, bare, Th1(bytes, PutServerHello(bare, false, [])), coins.signature.value);
  }

  lemma ResponderConfirms(s: ResponderState, bytes: Bytes, coins: Coins) returns (cf: ClientFinish, prk: Bytes)
    requires s.AwaitClientFinish? && OnClientFinish(s, bytes, coins).0.Ok?
    ensures cf.Sized() && |prk| == HASH_LEN
    ensures var (sf, session) := OnClientFinish(s, bytes, coins).0.value;
            var th2 := Th2(s.ch, s.shFull, PutFinishBare(cf.ctToB, []));
            && sf == EncodeServerFinish(ServerMac(Schedule(prk, th2), th2, cf.mac))
            && session == SessionOf(ResponderRole, Schedule(prk, th2), th2, s.clientCert, s.clientEndpoint)
  {
    hide DecodeClientFinish, EncodeClientFinish, PutFinishBare, Verify, XAgree, Decapsulate, Schedule, Th2, Salt, Ikm,
         ClientMac, ServerMac, EncodeServerFinish;
    ClientFinishCanonical(bytes);
    cf := DecodeClientFinish(bytes).value;
    var ssX := XAgree(s.scalar, s.clientExPk, coins.zeroPoint).value;
    prk := Output(Extract(Salt(s.ch, s.shBare, PutFinishBare(cf.ctToB, [])),
                          Ikm(ssX, s.ssA, Decapsulate(s.kemSeed, cf.ctToB))), HASH_LEN);
  }

  // --- Agreement ---

  /** An initiator's whole history: who it is, what reached it, and the keys it ended with. */
  datatype InitiatorHistory = InitiatorHistory(identity: DeviceIdentity, endpoint: Bytes, expectedPeer: Bytes,
                                               start: Coins,
                                               serverHello: Bytes, coins: Coins, serverFinish: Bytes,
                                               keys: SessionKeys) {
    function Begun(): InitiatorState
      requires |endpoint| == KEY_LEN && |start.nonce| == KEY_LEN
    {
      AwaitServerHello(start.scalar, start.kemSeed, PutClientHello(Hello(identity, endpoint, start), []), expectedPeer)
    }

    /** It happened: every message was accepted, and these keys came out. */
    ghost predicate Completed() {
      && |endpoint| == KEY_LEN && |start.nonce| == KEY_LEN
      && var (sent, next) := OnServerHello(identity, Begun(), serverHello, coins);
         sent.Ok? && OnServerFinish(next, serverFinish).0 == Ok(keys)
    }
  }

  datatype ResponderHistory = ResponderHistory(identity: DeviceIdentity, endpoint: Bytes, observed: Bytes,
                                               seen: seq<Key>,
                                               clientHello: Bytes, coins: Coins, clientFinish: Bytes, last: Coins,
                                               serverFinish: Bytes, keys: SessionKeys) {
    function Sent(): Result<Bytes, HandshakeError>
      requires |endpoint| == KEY_LEN && |coins.nonce| == KEY_LEN
    {
      OnClientHello(identity, endpoint, AwaitClientHello, clientHello, observed, seen, coins).0
    }

    ghost predicate Completed() {
      && |endpoint| == KEY_LEN && |coins.nonce| == KEY_LEN
      && var (sent, next, _) := OnClientHello(identity, endpoint, AwaitClientHello, clientHello, observed, seen, coins);
         sent.Ok? && OnClientFinish(next, clientFinish, last).0 == Ok((serverFinish, keys))
    }
  }

  /** An accepted final MAC fixes the extraction output and TH2. */
  lemma MacPinsKeys(prk: Bytes, th2: Bytes, mac: Bytes, prk': Bytes, th2': Bytes, mac': Bytes)
    requires |th2| == |th2'| == HASH_LEN
    requires ServerMac(Schedule(prk, th2), th2, mac) == ServerMac(Schedule(prk', th2'), th2', mac')
    ensures prk == prk' && th2 == th2' && mac == mac'
  {
    hide Ascii;
    var k, k' := Schedule(prk, th2).serverFinished, Schedule(prk', th2').serverFinished;
    var h, h' := Output(Sha384(th2 + mac), HASH_LEN), Output(Sha384(th2' + mac'), HASH_LEN);
    OutputInjective(Hmac(k, h), Hmac(k', h'), HASH_LEN);
    OutputInjective(Sha384(th2 + mac), Sha384(th2' + mac'), HASH_LEN);
    SplitAt(th2, mac, th2', mac');
    OutputInjective(Expand(prk, Ascii("RTP2 server finished v1") + th2),
                    Expand(prk', Ascii("RTP2 server finished v1") + th2'), HASH_LEN);
  }

  /** An initiator's keys, taken apart. */
  lemma InitiatorEnds(i: InitiatorHistory) returns (sh: ServerHello, ctToB: Bytes, prk: Bytes)
    requires i.Completed()
    ensures sh.Sized() && sh.signature.Some? && i.serverHello == PutServerHello(sh, true, []) &&
            sh.endpoint == i.expectedPeer
    ensures |ctToB| == MLKEM_CIPHERTEXT_LEN
    ensures var th2 := Th2(PutClientHello(Hello(i.identity, i.endpoint, i.start), []), i.serverHello,
                           PutFinishBare(ctToB, []));
            && i.keys == SessionOf(InitiatorRole, Schedule(prk, th2), th2, sh.cert, sh.endpoint)
            && DecodeServerFinish(i.serverFinish) ==
                Ok(ServerMac(Schedule(prk, th2), th2, ClientMac(Schedule(prk, th2), th2)))
  {
    hide PutServerHello, PutClientHello, PutFinishBare, Hello, OnServerHello, Schedule, Th2, ClientMac, ServerMac,
         DecodeServerFinish;
    sh, ctToB, prk := InitiatorHolds(i.identity, i.Begun(), i.serverHello, i.coins);
  }

  lemma ResponderEnds(r: ResponderHistory) returns (ch: ClientHello, sh: ServerHello, cf: ClientFinish, prk: Bytes)
    requires r.Completed()
    ensures ch.Sized() && r.clientHello == PutClientHello(ch, []) && ch.endpoint == r.observed
    ensures sh.Sized() && sh.signature.Some? && sh.cert == r.identity.Public() && sh.endpoint == r.endpoint
    ensures cf.Sized() && r.Sent() == Ok(PutServerHello(sh, true, []))
    ensures var th2 := Th2(r.clientHello, PutServerHello(sh, true, []), PutFinishBare(cf.ctToB, []));
            && r.keys == SessionOf(ResponderRole, Schedule(prk, th2), th2, ch.cert, ch.endpoint)
            && r.serverFinish == EncodeServerFinish(ServerMac(Schedule(prk, th2), th2, cf.mac))
  {
    hide PutServerHello, PutClientHello, PutFinishBare, OnClientHello, OnClientFinish, Schedule, Th2, ServerMac,
         EncodeServerFinish, DeviceIdentity.Public;
    ch, sh := ResponderOffers(r.identity, r.endpoint, AwaitClientHello, r.clientHello, r.observed, r.seen, r.coins);
    var next := OnClientHello(r.identity, r.endpoint, AwaitClientHello, r.clientHello, r.observed, r.seen, r.coins).1;
    cf, prk := ResponderConfirms(next, r.clientFinish, r.last);
  }

  /** An accepted ServerFinish means one transcript and one schedule behind both sides' keys. */
  lemma TranscriptsMatch(i: InitiatorHistory, r: ResponderHistory) returns (sh: ServerHello, prk: Bytes, th2: Bytes)
    requires i.Completed() && r.Completed() && i.serverFinish == r.serverFinish
    ensures sh.cert == r.identity.Public() && sh.endpoint == r.endpoint == i.expectedPeer && i.endpoint == r.observed
    ensures r.clientHello == i.Begun().ch && r.Sent() == Ok(i.serverHello)
    ensures i.keys == SessionOf(InitiatorRole, Schedule(prk, th2), th2, sh.cert, sh.endpoint)
    ensures r.keys == SessionOf(ResponderRole, Schedule(prk, th2), th2, i.identity.Public(), i.endpoint)
  {
    hide PutServerHello, PutClientHello, PutFinishBare, Schedule, Th2, ServerMac, ClientMac, EncodeServerFinish,
         DecodeServerFinish, OnServerHello, OnClientHello, OnClientFinish;
    var ctToB;
    sh, ctToB, prk := InitiatorEnds(i);
    var ch, sh', cf, prk' := ResponderEnds(r);
    var own := Hello(i.identity, i.endpoint, i.start);
    th2 := Th2(PutClientHello(own, []), i.serverHello, PutFinishBare(ctToB, []));
    var th2' := Th2(r.clientHello, PutServerHello(sh', true, []), PutFinishBare(cf.ctToB, []));
    ServerFinishReads(ServerMac(Schedule(prk', th2'), th2', cf.mac));
    MacPinsKeys(prk, th2, ClientMac(Schedule(prk, th2), th2), prk', th2', cf.mac);
    Th2Splits(own, sh, ctToB, ch, sh', cf.ctToB);
  }

  /**
   An initiator that accepts the ServerFinish some responder computed shares every key with
   that responder, and each names the other. The messages that reached the two may have been
   altered, reordered or taken from any other session.
   */
  lemma SessionsAgree(i: InitiatorHistory, r: ResponderHistory)
    requires i.Completed() && r.Completed()
    requires i.serverFinish == r.serverFinish
    ensures i.keys.prk == r.keys.prk && i.keys.th2 == r.keys.th2
    ensures i.keys.c2s == r.keys.c2s && i.keys.s2c == r.keys.s2c
    ensures i.keys.wrap == r.keys.wrap && i.keys.resumption == r.keys.resumption
    ensures i.keys.peer == r.identity.Public() && i.keys.peerEndpoint == r.endpoint == i.expectedPeer
    ensures r.keys.peer == i.identity.Public() && r.keys.peerEndpoint == i.endpoint == r.observed
  {
    hide InitiatorHistory.Completed, ResponderHistory.Completed, Schedule;
    var _, _, _ := TranscriptsMatch(i, r);
  }

  /** They also saw the same messages: neither hello was altered on the way. */
  lemma SessionsSawTheSame(i: InitiatorHistory, r: ResponderHistory)
    requires i.Completed() && r.Completed()
    requires i.serverFinish == r.serverFinish
    ensures r.clientHello == i.Begun().ch
    ensures r.Sent() == Ok(i.serverHello)
  {
    hide Schedule;
    var _, _, _ := TranscriptsMatch(i, r);
  }

  // --- An error is final ---

  datatype Call = HelloCall(bytes: Bytes, coins: Coins) | FinishCall(bytes: Bytes)

  datatype Outcome = Refused | Replied | Keyed(keys: SessionKeys)

  function InitiatorCall(identity: DeviceIdentity, s: InitiatorState, call: Call): (Outcome, InitiatorState) {
    match call
    case HelloCall(bytes, coins) =>
      var (r, next) := OnServerHello(identity, s, bytes, coins);
      (if r.Ok? then Replied else Refused, next)
    case FinishCall(bytes) =>
      var (r, next) := OnServerFinish(s, bytes);
      (if r.Ok? then Keyed(r.value) else Refused, next)
  }

  function InitiatorOutcomes(identity: DeviceIdentity, s: InitiatorState, calls: seq<Call>): (o: seq<Outcome>)
    ensures |o| == |calls|
    decreases |calls|
  {
    if calls == [] then []
    else
      var (first, next) := InitiatorCall(identity, s, calls[0]);
      [first] + InitiatorOutcomes(identity, next, calls[1..])
  }

  /** A side that has stopped refuses every call. */
  lemma {:induction false} StoppedInitiator(identity: DeviceIdentity, s: InitiatorState, calls: seq<Call>)
    requires s == InitiatorFailed || s == InitiatorDone
    ensures forall k :: 0 <= k < |calls| ==> InitiatorOutcomes(identity, s, calls)[k] == Refused
    decreases |calls|
  {
    if calls != [] {
      StoppedInitiator(identity, InitiatorFailed, calls[1..]);
    }
  }

  /** After a refusal, or once keys are out, an initiator yields nothing more, whatever it is called with. */
  lemma {:induction false} InitiatorEndsOnce(identity: DeviceIdentity, s: InitiatorState, calls: seq<Call>, j: nat,
                                             k: nat)
    requires j < k < |calls|
    requires InitiatorOutcomes(identity, s, calls)[j] != Replied
    ensures InitiatorOutcomes(identity, s, calls)[k] == Refused
    decreases |calls|
  {
    hide Answer, DecodeServerFinish, ServerMac;
    var (first, next) := InitiatorCall(identity, s, calls[0]);
    if j == 0 {
      StoppedInitiator(identity, next, calls[1..]);
    } else {
      InitiatorEndsOnce(identity, next, calls[1..], j - 1, k - 1);
    }
  }

  datatype ResponderCall = ClientHelloCall(bytes: Bytes, observed: Bytes, seen: seq<Key>, coins: Coins)
      | ClientFinishCall(bytes: Bytes, coins: Coins)

  predicate Plausible(calls: seq<ResponderCall>) {
    forall c :: c in calls && c.ClientHelloCall? ==> |c.coins.nonce| == KEY_LEN
  }

  function RespondCall(identity: DeviceIdentity, endpoint: Bytes, s: ResponderState,
                       call: ResponderCall): (Outcome, ResponderState)
    requires |endpoint| == KEY_LEN && (call.ClientHelloCall? ==> |call.coins.nonce| == KEY_LEN)
  {
    match call
    case ClientHelloCall(bytes, observed, seen, coins) =>
      var (r, next, _) := OnClientHello(identity, endpoint, s, bytes, observed, seen, coins);
      (if r.Ok? then Replied else Refused, next)
    case ClientFinishCall(bytes, coins) =>
      var (r, next) := OnClientFinish(s, bytes, coins);
      (if r.Ok? then Keyed(r.value.1) else Refused, next)
  }

  function ResponderOutcomes(identity: DeviceIdentity, endpoint: Bytes, s: ResponderState,
                             calls: seq<ResponderCall>): (o: seq<Outcome>)
    requires |endpoint| == KEY_LEN && Plausible(calls)
    ensures |o| == |calls|
    decreases |calls|
  {
    if calls == [] then []
    else
      assert calls[0] in calls;
      assert forall c :: c in calls[1..] ==> c in calls;
      var (first, next) := RespondCall(identity, endpoint, s, calls[0]);
      [first] + ResponderOutcomes(identity, endpoint, next, calls[1..])
  }

  lemma {:induction false} StoppedResponder(identity: DeviceIdentity, endpoint: Bytes, s: ResponderState,
                                            calls: seq<ResponderCall>)
    requires |endpoint| == KEY_LEN && Plausible(calls) && (s == ResponderFailed || s == ResponderDone)
    ensures forall k :: 0 <= k < |calls| ==> ResponderOutcomes(identity, endpoint, s, calls)[k] == Refused
    decreases |calls|
  {
    hide Screen, Offer, Confirm;
    if calls != [] {
      assert calls[0] in calls;
      assert forall c :: c in calls[1..] ==> c in calls;
      StoppedResponder(identity, endpoint, ResponderFailed, calls[1..]);
    }
  }

  lemma {:induction false} ResponderEndsOnce(identity: DeviceIdentity, endpoint: Bytes, s: ResponderState,
                                             calls: seq<ResponderCall>, j: nat, k: nat)
    requires |endpoint| == KEY_LEN && Plausible(calls) && j < k < |calls|
    requires ResponderOutcomes(identity, endpoint, s, calls)[j] != Replied
    ensures ResponderOutcomes(identity, endpoint, s, calls)[k] == Refused
    decreases |calls|
  {
    hide Screen, Offer, Confirm, Remember;
    assert calls[0] in calls;
    assert forall c :: c in calls[1..] ==> c in calls;
    var (first, next) := RespondCall(identity, endpoint, s, calls[0]);
    if j == 0 {
      StoppedResponder(identity, endpoint, next, calls[1..]);
    } else {
      ResponderEndsOnce(identity, endpoint, next, calls[1..], j - 1, k - 1);
    }
  }

  // --- An undisturbed run completes ---

  lemma PointsAgree(a: nat, b: nat, zero: bool, zero': bool)
    ensures XAgree(a, XPoint(b), zero).Ok? && XAgree(a, XPoint(b), zero) == XAgree(b, XPoint(a), zero')
  {
    assert {a, b} == {b, a};
    assert XPoint(a)[0] == Derived(XPublic(a), 0) && XPoint(b)[0] == Derived(XPublic(b), 0);
  }

  lemma KemAgrees(seed: nat, coin: nat, accepted: bool)
    ensures Encapsulate(KemKey(seed), coin, accepted).Ok?
    ensures var (ct, ss) := Encapsulate(KemKey(seed), coin, accepted).value; Decapsulate(seed, ct) == ss
  {
    assert KemKey(seed)[0] == Derived(KemPublic(seed), 0);
    var t := KemCiphertext(KemKey(seed), coin);
    assert Output(t, MLKEM_CIPHERTEXT_LEN)[0] == Derived(t, 0);
  }

  lemma BareIgnoresSignature(h: ServerHello, s: Option<HybridSignature>)
    requires h.Sized() && (s.Some? ==> s.value.Sized())
    ensures h.(signature := s).Sized()
    ensures PutServerHello(h.(signature := s), false, []) == PutServerHello(h, false, [])
  {
    hide PutMap, PutUint, PutBytes, PutDevice;
  }

  /** What a responder wants of a hello. */
  predicate Welcome(ch: ClientHello, now: U64) {
    && ch.alpn == Alpn() && ch.mode == MODE_STANDALONE && SUITE_ID in ch.suites && ch.pqcRequired && ch.level >= 1
    && Apart(ch.timestamp, now) <= TIMESTAMP_WINDOW
  }

  /** The responder takes an undisturbed hello. */
  lemma HelloTaken(identity: DeviceIdentity, endpoint: Bytes, ch: ClientHello, bytes: Bytes, seen: seq<Key>,
                   coins: Coins)
    returns (sh: ServerHello, ssA: Bytes)
    requires |endpoint| == KEY_LEN && |coins.nonce| == KEY_LEN && coins.signature.Some?
    requires ch.Sized() && bytes == PutClientHello(ch, []) && Welcome(ch, coins.now)
    requires Remember(seen, ch.cert.deviceId + ch.nonce).0 &&
             Encapsulate(ch.kemPk, coins.kemCoin, coins.keyAccepted).Ok?
    ensures ssA == Encapsulate(ch.kemPk, coins.kemCoin, coins.keyAccepted).value.1
    ensures sh == Reply(identity, endpoint, ch, Encapsulate(ch.kemPk, coins.kemCoin, coins.keyAccepted).value.0, coins)
    ensures var (sent, next, _) := OnClientHello(identity, endpoint, AwaitClientHello, bytes, ch.endpoint, seen, coins);
            (sent, next) == (Ok(OfferWith(identity, bytes, ch, sh, ssA, coins).0),
                             OfferWith(identity, bytes, ch, sh, ssA, coins).1)
  {
    hide PutClientHello, DecodeClientHello, OfferWith, Remember, Encapsulate, Alpn, Reply;
    ClientHelloReads(ch);
    ssA := Encapsulate(ch.kemPk, coins.kemCoin, coins.keyAccepted).value.1;
    sh := Reply(identity, endpoint, ch, Encapsulate(ch.kemPk, coins.kemCoin, coins.keyAccepted).value.0, coins);
  }

  /** The initiator takes the reply, and commits to the secrets it agreed. */
  lemma ReplyTaken(identity: DeviceIdentity, s: InitiatorState, signer: DeviceIdentity, sh: ServerHello, coin: nat,
                   coins: Coins)
    returns (full: ServerHello, ssX: Bytes, ctToB: Bytes, ssB: Bytes)
    requires s.AwaitServerHello? && sh.Sized() && sh.cert == signer.Public() && sh.endpoint == s.expectedPeer
    requires sh.minor == PROTOCOL_MINOR && sh.mode == MODE_STANDALONE && sh.alpn == Alpn() && sh.suite == SUITE_ID
    requires XAgree(s.scalar, sh.exPk, coins.zeroPoint).Ok? &&
             Encapsulate(sh.kemPk, coins.kemCoin, coins.keyAccepted).Ok? && coins.signature.Some?
    ensures full == Signed(signer, sh, Th1(s.ch, PutServerHello(sh, false, [])), coin)
    ensures full.Sized() && full.signature.Some?
    ensures XAgree(s.scalar, sh.exPk, coins.zeroPoint) == Ok(ssX)
    ensures Encapsulate(sh.kemPk, coins.kemCoin, coins.keyAccepted) == Ok((ctToB, ssB)) &&
            |ctToB| == MLKEM_CIPHERTEXT_LEN
    ensures Answer(identity, s, PutServerHello(full, true, []), coins) ==
            Ok(Commit(identity, s.ch, PutServerHello(sh, false, []), PutServerHello(full, true, []), ctToB, ssX,
                      Decapsulate(s.kemSeed, sh.ctToA), ssB, coins.signature.value, sh.cert, sh.endpoint))
  {
    hide DecodeServerHello, PutServerHello, Commit, Encapsulate, XAgree, Decapsulate, Th1, Alpn, Sign, Verify,
         DeviceIdentity.Public;
    var th1 := Th1(s.ch, PutServerHello(sh, false, []));
    full := Signed(signer, sh, th1, coin);
    BareIgnoresSignature(sh, full.signature);
    SignatureVerifies(sh.cert, th1, coin);
    ServerHelloReads(full);
    ssX := XAgree(s.scalar, sh.exPk, coins.zeroPoint).value;
    ctToB, ssB := Encapsulate(sh.kemPk, coins.kemCoin, coins.keyAccepted).value.0,
        Encapsulate(sh.kemPk, coins.kemCoin, coins.keyAccepted).value.1;
  }

  /** The responder confirms a finish made with the secrets it agrees on, with the MAC the initiator waits for. */
  lemma FinishTaken(identity: DeviceIdentity, s: ResponderState, ctToB: Bytes, ssX: Bytes, ssB: Bytes, coin: nat,
                    peer: DevicePublic, peerEndpoint: Bytes,
                    coins: Coins, cf: Bytes, next: InitiatorState)
    requires s.AwaitClientFinish? && s.clientCert == identity.Public() && |ctToB| == MLKEM_CIPHERTEXT_LEN
    requires XAgree(s.scalar, s.clientExPk, coins.zeroPoint) == Ok(ssX) && Decapsulate(s.kemSeed, ctToB) == ssB
    requires Commit(identity, s.ch, s.shBare, s.shFull, ctToB, ssX, s.ssA, ssB, coin, peer, peerEndpoint) == (cf, next)
    ensures next.AwaitServerFinish? && Confirm(s, cf, coins).Ok?
    ensures Confirm(s, cf, coins).value.0 == EncodeServerFinish(ServerMac(next.keys, next.th2, next.clientMac))
  {
    hide DecodeClientFinish, EncodeClientFinish, EncodeServerFinish, PutFinishBare, DeriveKeys, Decapsulate, XAgree,
         Th2, Sign, Verify, ServerMac, ClientMac, DeviceIdentity.Public;
    var bare := PutFinishBare(ctToB, []);
    var th2 := Th2(s.ch, s.shFull, bare);
    var keys := DeriveKeys(s.ch, s.shBare, bare, th2, ssX, s.ssA, ssB);
    var finish := ClientFinish(ctToB, Sign(identity.Public(), th2, coin), ClientMac(keys, th2));
    SignatureVerifies(identity.Public(), th2, coin);
    ClientFinishReads(finish);
  }

  /**
   Messages carried unaltered between two devices that dial each other complete the handshake
   on both sides, for every choice of randomness.
   */
  lemma UndisturbedRunCompletes(a: DeviceIdentity, b: DeviceIdentity, ea: Bytes, eb: Bytes, start: Coins, reply: Coins,
                                answer: Coins, last: Coins, seen: seq<Key>)
    returns (i: InitiatorHistory, r: ResponderHistory)
    requires |ea| == KEY_LEN && |eb| == KEY_LEN && |start.nonce| == KEY_LEN && |reply.nonce| == KEY_LEN
    requires reply.signature.Some? && answer.signature.Some?
    requires Apart(start.now, reply.now) <= TIMESTAMP_WINDOW && Remember(seen, a.Public().deviceId + start.nonce).0
    ensures i.identity == a && r.identity == b && i.endpoint == ea && r.endpoint == eb && i.start == start &&
            r.coins == reply && i.coins == answer
    ensures i.Completed() && r.Completed() && i.serverFinish == r.serverFinish
  {
    hide PutClientHello, PutServerHello, OfferWith, Commit, Answer, Confirm, XAgree, Encapsulate, Decapsulate,
         DecodeServerFinish, EncodeServerFinish,
         ServerMac, Remember, Screen, Offer, Alpn, DeviceIdentity.Public, XPoint, KemKey;
    var ch := Hello(a, ea, start);
    var s := AwaitServerHello(start.scalar, start.kemSeed, PutClientHello(ch, []), eb);
    KemAgrees(start.kemSeed, reply.kemCoin, reply.keyAccepted);
    var sh, ssA := HelloTaken(b, eb, ch, s.ch, seen, reply);
    PointsAgree(start.scalar, reply.scalar, answer.zeroPoint, last.zeroPoint);
    KemAgrees(reply.kemSeed, answer.kemCoin, answer.keyAccepted);
    var full, ssX, ctToB, ssB := ReplyTaken(a, s, b, sh, reply.signature.value, answer);
    var waiting := Offered(b, s.ch, ch, sh, full, ssA, reply);
    var committed := Commit(a, s.ch, PutServerHello(sh, false, []), PutServerHello(full, true, []), ctToB, ssX,
                            Decapsulate(s.kemSeed, sh.ctToA), ssB, answer.signature.value, sh.cert, sh.endpoint);
    FinishTaken(a, waiting, ctToB, ssX, ssB, answer.signature.value, sh.cert, sh.endpoint, last, committed.0,
                committed.1);
    var mac := ServerMac(committed.1.keys, committed.1.th2, committed.1.clientMac);
    ServerFinishReads(mac);
    var done := Confirm(waiting, committed.0, last).value;
    var session := SessionOf(InitiatorRole, committed.1.keys, committed.1.th2, committed.1.peer,
                             committed.1.peerEndpoint);
    i := InitiatorHistory(a, ea, eb, start, PutServerHello(full, true, []), answer, done.0, session);
    r := ResponderHistory(b, eb, ea, seen, s.ch, reply, committed.0, last, done.0, done.1);
  }

  lemma Offered(identity: DeviceIdentity, bytes: Bytes, ch: ClientHello, sh: ServerHello, full: ServerHello,
                ssA: Bytes, coins: Coins) returns (s: ResponderState)
    requires sh.Sized() && coins.signature.Some? &&
             full == Signed(identity, sh, Th1(bytes, PutServerHello(sh, false, [])), coins.signature.value)
    ensures OfferWith(identity, bytes, ch, sh, ssA, coins) == (PutServerHello(full, true, []), s)
    ensures s == AwaitClientFinish(coins.scalar, coins.kemSeed, ssA, bytes, PutServerHello(sh, false, []),
                                   PutServerHello(full, true, []), ch.exPk, ch.cert, ch.endpoint)
  {
    hide PutServerHello, Signed;
    s := OfferWith(identity, bytes, ch, sh, ssA, coins).1;
  }
}
