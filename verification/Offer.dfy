/**
 The transfer offer (`offer.rs`): what its signature covers, its wire form, and the
 recipient's checks.
 */
module Offer {
  import opened Octets
  import opened Cbor
  import opened Messages
  import M = Manifest
  import H = Handshake

  const MAX_ENVELOPES := 64
  const MAX_PROVIDERS := 32
  const MAX_ADDRESS := 512
  const NONCE_LEN := 24

  datatype OfferError =
    | Encoding | UnsupportedAuthMode | BadSignature | CommitmentMismatch | ScopeMismatch | Expired
    | TooManyEnvelopes | TooManyProviders | ValueTooLong | NoEnvelope

  datatype AuthMode = BoundSessionMac | StandaloneHybridSignature

  datatype Envelope = Envelope(recipient: Bytes, nonce: Bytes, ciphertext: Bytes) {
    ghost predicate Sized() {
      |recipient| == KEY_LEN && |nonce| == NONCE_LEN && |ciphertext| < U64_LIMIT
    }
  }

  datatype Provider = Provider(kind: U64, address: Bytes) {
    ghost predicate Sized() {
      |address| < U64_LIMIT
    }
  }

  datatype Scope = Scope(kind: U64, id: Bytes) {
    ghost predicate Sized() {
      |id| < U64_LIMIT
    }
  }

  datatype Sealed = Sealed(nonce: Bytes, ciphertext: Bytes) {
    ghost predicate Sized() {
      |nonce| == NONCE_LEN && |ciphertext| < U64_LIMIT
    }

    function Hash(): (h: Bytes)
      ensures |h| == KEY_LEN
    {
      Output(Blake3(nonce + ciphertext), KEY_LEN)
    }
  }

  /** What the signature is meant to cover. */
  datatype Content = Content(manifest: M.PublicManifest, scope: Scope, envelopes: seq<Envelope>,
                             providers: seq<Provider>,
                             sender: DevicePublic, mode: AuthMode) {
    ghost predicate Sized() {
      && manifest.Sized() && scope.Sized() && sender.Sized()
      && |envelopes| < U64_LIMIT && AllEnvelopes(envelopes)
      && |providers| < U64_LIMIT && AllProviders(providers)
    }
  }

  ghost predicate AllEnvelopes(s: seq<Envelope>) {
    forall k :: 0 <= k < |s| ==> s[k].Sized()
  }

  ghost predicate AllProviders(s: seq<Provider>) {
    forall k :: 0 <= k < |s| ==> s[k].Sized()
  }

  predicate AllShort(s: seq<Provider>) {
    forall k :: 0 <= k < |s| ==> |s[k].address| <= MAX_ADDRESS
  }

  // --- Encoding ---

  function PutEnvelope(e: Envelope, tail: Bytes): Bytes
    requires e.Sized()
  {
    PutMap(3, PutUint(0, PutBytes(e.recipient, PutUint(1, PutBytes(e.nonce, PutUint(2,
      PutBytes(e.ciphertext, tail)))))))
  }

  function PutEnvelopes(s: seq<Envelope>, tail: Bytes): Bytes
    requires AllEnvelopes(s)
  {
    if s == [] then tail else PutEnvelope(s[0], PutEnvelopes(s[1..], tail))
  }

  function PutProvider(p: Provider, tail: Bytes): Bytes
    requires p.Sized()
  {
    PutMap(2, PutUint(0, PutUint(p.kind, PutUint(1, PutBytes(p.address, tail)))))
  }

  function PutProviders(s: seq<Provider>, tail: Bytes): Bytes
    requires AllProviders(s)
  {
    if s == [] then tail else PutProvider(s[0], PutProviders(s[1..], tail))
  }

  function PutScope(s: Scope, tail: Bytes): Bytes
    requires s.Sized()
  {
    PutMap(2, PutUint(0, PutUint(s.kind, PutUint(1, PutBytes(s.id, tail)))))
  }

  function ModeNumber(mode: AuthMode): U64 {
    if mode.BoundSessionMac? then 0 else 1
  }

  // --- What is signed ---

  function BindingInput(c: Content): Bytes
    requires c.Sized()
  {
    PutMap(4, PutUint(0, PutArray(|c.envelopes|, PutEnvelopes(c.envelopes,
      PutUint(1, PutArray(|c.providers|, PutProviders(c.providers,
      PutUint(2, PutDevice(c.sender, PutUint(3, PutUint(ModeNumber(c.mode), [])))))))))))
  }

  function BindingHash(c: Content): (h: Bytes)
    requires c.Sized()
    ensures |h| == KEY_LEN
  {
    Tagged("RTP2-OFFER-BINDING-v1", BindingInput(c))
  }

  /** Covers the decoded fields, re-encoded. */
  function Commitment(m: M.PublicManifest): (h: Bytes)
    requires m.Sized()
    ensures |h| == KEY_LEN
  {
    Tagged("RTP2-MANIFEST-COMMITMENT-v1\0", (M.Encode(m) + m.privateHash))
  }

  function ScopeHash(s: Scope): (h: Bytes)
    requires s.Sized()
    ensures |h| == KEY_LEN
  {
    Tagged("RTP2-RECIPIENT-SCOPE-v1", PutScope(s, []))
  }

  function SigningDigest(commitment: Bytes, scope: Bytes, binding: Bytes): (h: Bytes)
    ensures |h| == HASH_LEN
  {
    Output(Sha384(Ascii("RTP2-OFFER-SIGN-v1") + (commitment + (scope + binding))), HASH_LEN)
  }

  function SigningHash(c: Content): (h: Bytes)
    requires c.Sized()
    ensures |h| == HASH_LEN
  {
    SigningDigest(Commitment(c.manifest), ScopeHash(c.scope), BindingHash(c))
  }

  // --- It binds everything ---

  lemma EnvelopePeels(a: Envelope, x: Bytes, b: Envelope, y: Bytes)
    requires a.Sized() && b.Sized() && PutEnvelope(a, x) == PutEnvelope(b, y)
    ensures a == b && x == y
  {
    hide PutUint, PutBytes, PutMap;
    Peels();
  }

  lemma {:induction false} EnvelopesPeel(a: seq<Envelope>, x: Bytes, b: seq<Envelope>, y: Bytes)
    requires AllEnvelopes(a) && AllEnvelopes(b) && |a| == |b| && PutEnvelopes(a, x) == PutEnvelopes(b, y)
    ensures a == b && x == y
  {
    hide PutEnvelope;
    if a != [] {
      EnvelopePeels(a[0], PutEnvelopes(a[1..], x), b[0], PutEnvelopes(b[1..], y));
      EnvelopesPeel(a[1..], x, b[1..], y);
    }
  }

  lemma ProviderPeels(a: Provider, x: Bytes, b: Provider, y: Bytes)
    requires a.Sized() && b.Sized() && PutProvider(a, x) == PutProvider(b, y)
    ensures a == b && x == y
  {
    hide PutUint, PutBytes, PutMap;
    Peels();
  }

  lemma {:induction false} ProvidersPeel(a: seq<Provider>, x: Bytes, b: seq<Provider>, y: Bytes)
    requires AllProviders(a) && AllProviders(b) && |a| == |b| && PutProviders(a, x) == PutProviders(b, y)
    ensures a == b && x == y
  {
    hide PutProvider;
    if a != [] {
      ProviderPeels(a[0], PutProviders(a[1..], x), b[0], PutProviders(b[1..], y));
      ProvidersPeel(a[1..], x, b[1..], y);
    }
  }

  lemma ScopePeels(a: Scope, x: Bytes, b: Scope, y: Bytes)
    requires a.Sized() && b.Sized() && PutScope(a, x) == PutScope(b, y)
    ensures a == b && x == y
  {
    hide PutUint, PutBytes, PutMap;
    Peels();
  }

  lemma BindingSplits(a: Content, b: Content)
    requires a.Sized() && b.Sized() && BindingHash(a) == BindingHash(b)
    ensures a.envelopes == b.envelopes && a.providers == b.providers && a.sender == b.sender && a.mode == b.mode
  {
    hide Tagged, PutUint, PutMap, PutArray, PutEnvelopes, PutProviders, PutDevice, AllEnvelopes, AllProviders;
    TaggedSplits("RTP2-OFFER-BINDING-v1", BindingInput(a), BindingInput(b));
    Peels();
    var x, y := PutUint(3, PutUint(ModeNumber(a.mode), [])), PutUint(3, PutUint(ModeNumber(b.mode), []));
    var u, v := PutProviders(a.providers, PutUint(2, PutDevice(a.sender, x))),
        PutProviders(b.providers, PutUint(2, PutDevice(b.sender, y)));
    EnvelopesPeel(a.envelopes, PutUint(1, PutArray(|a.providers|, u)), b.envelopes,
                  PutUint(1, PutArray(|b.providers|, v)));
    ProvidersPeel(a.providers, PutUint(2, PutDevice(a.sender, x)), b.providers, PutUint(2, PutDevice(b.sender, y)));
    DevicePeels(a.sender, x, b.sender, y);
  }

  lemma CommitmentSplits(a: M.PublicManifest, b: M.PublicManifest)
    requires a.Sized() && b.Sized() && Commitment(a) == Commitment(b)
    ensures a == b
  {
    hide Tagged, M.Encode;
    TaggedSplits("RTP2-MANIFEST-COMMITMENT-v1\0", M.Encode(a) + a.privateHash, M.Encode(b) + b.privateHash);
    assert |M.Encode(a)| == |M.Encode(b)|;
    SplitAt(M.Encode(a), a.privateHash, M.Encode(b), b.privateHash);
    M.EncodeInjective(a, b);
  }

  lemma ScopeSplits(a: Scope, b: Scope)
    requires a.Sized() && b.Sized() && ScopeHash(a) == ScopeHash(b)
    ensures a == b
  {
    hide Tagged, PutScope;
    TaggedSplits("RTP2-RECIPIENT-SCOPE-v1", PutScope(a, []), PutScope(b, []));
    ScopePeels(a, [], b, []);
  }

  lemma SigningSplits(c: Bytes, s: Bytes, b: Bytes, c': Bytes, s': Bytes, b': Bytes)
    requires |c| == |c'| && |s| == |s'| && SigningDigest(c, s, b) == SigningDigest(c', s', b')
    ensures c == c' && s == s' && b == b'
  {
    hide Ascii;
    var domain := Ascii("RTP2-OFFER-SIGN-v1");
    var x, y := c + (s + b), c' + (s' + b');
    OutputInjective(Sha384(domain + x), Sha384(domain + y), HASH_LEN);
    SplitAt(domain, x, domain, y);
    SplitAt(c, s + b, c', s' + b');
    SplitAt(s, b, s', b');
  }

  /** Equal signing hashes: the same manifest, scope, envelopes, providers, sender and mode. */
  lemma SigningHashBinds(a: Content, b: Content)
    requires a.Sized() && b.Sized() && SigningHash(a) == SigningHash(b)
    ensures a == b
  {
    PartsSized(a);
    PartsSized(b);
    hide Content.Sized, SigningDigest, Commitment, ScopeHash, BindingHash, M.PublicManifest.Sized, Scope.Sized;
    SigningSplits(Commitment(a.manifest), ScopeHash(a.scope), BindingHash(a), Commitment(b.manifest),
                  ScopeHash(b.scope), BindingHash(b));
    BindingSplits(a, b);
    CommitmentSplits(a.manifest, b.manifest);
    ScopeSplits(a.scope, b.scope);
  }

  lemma PartsSized(c: Content)
    requires c.Sized()
    ensures c.manifest.Sized() && c.scope.Sized()
  {
  }

  // --- The offer itself ---

  datatype TransferOffer = TransferOffer(manifestBytes: Bytes, sealed: Sealed, envelopes: seq<Envelope>,
                                         providers: seq<Provider>,
                                         sender: DevicePublic, scope: Scope, mode: AuthMode,
                                         signature: HybridSignature) {
    ghost predicate Sized() {
      && |manifestBytes| < U64_LIMIT && sealed.Sized() && sender.Sized() && scope.Sized() && signature.Sized()
      && |envelopes| < U64_LIMIT && AllEnvelopes(envelopes)
      && |providers| < U64_LIMIT && AllProviders(providers)
    }

    /** What a recipient's decoder puts up with. */
    predicate Wireable() {
      && 0 < |envelopes| <= MAX_ENVELOPES && |providers| <= MAX_PROVIDERS
      && |scope.id| <= MAX_ADDRESS && AllShort(providers)
    }

    function With(m: M.PublicManifest): Content {
      Content(m, scope, envelopes, providers, sender, mode)
    }
  }

  /** `create`: checks, then signs. */
  ghost function Create(identity: H.DeviceIdentity, m: M.PublicManifest, sealed: Sealed, envelopes: seq<Envelope>,
                        providers: seq<Provider>,
                        scope: Scope, coin: Option<nat>): Result<TransferOffer, OfferError>
    requires m.Sized() && sealed.Sized() && AllEnvelopes(envelopes) && AllProviders(providers) && scope.Sized()
  {
    if !M.Valid(m) then Err(OfferError.Encoding)
    else if envelopes == [] then Err(NoEnvelope)
    else if |envelopes| > MAX_ENVELOPES then Err(TooManyEnvelopes)
    else if |providers| > MAX_PROVIDERS then Err(TooManyProviders)
    else if m.privateHash != sealed.Hash() then Err(CommitmentMismatch)
    else if coin.None? then Err(BadSignature)
    else
      var hash := SigningHash(Content(m, scope, envelopes, providers, identity.Public(), StandaloneHybridSignature));
      Ok(TransferOffer(M.Encode(m), sealed, envelopes, providers, identity.Public(), scope, StandaloneHybridSignature,
                       H.Sign(identity.Public(), hash, coin.value)))
  }

  /** The recipient's check of the content and its signature. */
  ghost function Judge(o: TransferOffer, m: M.PublicManifest, now: U64): Result<M.PublicManifest, OfferError>
    requires o.With(m).Sized()
  {
    if m.privateHash != o.sealed.Hash() then Err(CommitmentMismatch)
    else if !H.Verify(o.sender, SigningHash(o.With(m)), o.signature) then Err(BadSignature)
    else if now >= m.expiresAt then Err(Expired)
    else Ok(m)
  }

  /** `verify`. */
  ghost function VerifyOffer(o: TransferOffer, expected: Scope, now: U64): Result<M.PublicManifest, OfferError>
    requires o.Sized()
  {
    if o.mode != StandaloneHybridSignature then Err(UnsupportedAuthMode)
    else if o.scope != expected then Err(ScopeMismatch)
    else
      match M.Decode(o.manifestBytes)
      case Err(_) => Err(OfferError.Encoding)
      case Ok(m) =>
        DecodedSized(o.manifestBytes);
        Judge(o, m, now)
  }

  lemma DecodedSized(bytes: Bytes)
    requires M.Decode(bytes).Ok?
    ensures M.Decode(bytes).value.Sized() && M.Valid(M.Decode(bytes).value)
  {
    hide M.PutManifest, M.Decode, M.Valid;
    var extensions, extension := M.DecodedShape(bytes);
  }

  /** The sender signed this content. */
  ghost predicate Vouched(o: TransferOffer, m: M.PublicManifest) {
    o.With(m).Sized() && H.SignedBy(o.sender, SigningHash(o.With(m)), o.signature)
  }

  ghost predicate Acceptable(o: TransferOffer, expected: Scope, now: U64, m: M.PublicManifest) {
    && o.mode == StandaloneHybridSignature && o.scope == expected && now < m.expiresAt
    && M.Decode(o.manifestBytes) == Ok(m)
    && m.privateHash == Output(Blake3(o.sealed.nonce + o.sealed.ciphertext), 32) && Vouched(o, m)
  }

  /**
   A recipient accepts exactly an offer for its scope that carries a known and valid manifest not
   yet expired, with the sealed manifest it names, signed by the sender over all of it.
   */
  lemma VerifiedIff(o: TransferOffer, expected: Scope, now: U64, m: M.PublicManifest)
    requires o.Sized()
    ensures VerifyOffer(o, expected, now) == Ok(m) <==> Acceptable(o, expected, now, m)
  {
    hide M.Decode, M.Valid, M.AllSized, M.PublicManifest.Sized, M.PublicManifest.Known, SigningHash,
         AllEnvelopes, AllProviders, H.Verify, H.SignedBy;
    if M.Decode(o.manifestBytes).Ok? {
      DecodedSized(o.manifestBytes);
      var found := M.Decode(o.manifestBytes).value;
      H.VerifyIs(o.sender, SigningHash(o.With(found)), o.signature);
    }
  }

  /** An offer that was created for a manifest the protocol defines verifies for its scope until it expires. */
  lemma CreatedVerifies(identity: H.DeviceIdentity, m: M.PublicManifest, sealed: Sealed, envelopes: seq<Envelope>,
                        providers: seq<Provider>,
                        scope: Scope, coin: Option<nat>, now: U64)
    requires m.Sized() && sealed.Sized() && AllEnvelopes(envelopes) && AllProviders(providers) && scope.Sized()
    requires Create(identity, m, sealed, envelopes, providers, scope, coin).Ok?
    requires |M.Encode(m)| < U64_LIMIT
    ensures var o := Create(identity, m, sealed, envelopes, providers, scope, coin).value;
            && o.Sized()
            && o.With(m) == Content(m, scope, envelopes, providers, identity.Public(), StandaloneHybridSignature)
            && o.manifestBytes == M.Encode(m) && o.sealed == sealed
            && VerifyOffer(o, scope, now) ==
               if !m.Known() then Err(OfferError.Encoding) else if now < m.expiresAt then Ok(m) else Err(Expired)
  {
    hide M.Encode, M.Decode, M.Valid, M.AllSized, SigningHash, H.Sign, H.Verify, H.DeviceIdentity.Public, Sealed.Hash,
         AllEnvelopes, AllProviders, M.ObjectPublic.Known;
    M.EncodedReads(m);
    var content := Content(m, scope, envelopes, providers, identity.Public(), StandaloneHybridSignature);
    H.SignatureVerifies(identity.Public(), SigningHash(content), coin.value);
  }

  /**
   Two offers that verify under the same signature offer the same content: nothing in either
   can have been replaced, the sealed manifest and its nonce included.
   */
  lemma SignatureFixesOffer(a: TransferOffer, b: TransferOffer, s: Scope, t: Scope, now: U64, later: U64)
    requires a.Sized() && b.Sized() && a.signature.ed25519 == b.signature.ed25519
    requires VerifyOffer(a, s, now).Ok? && VerifyOffer(b, t, later).Ok?
    ensures VerifyOffer(a, s, now) == VerifyOffer(b, t, later) && s == t
    ensures a.sealed == b.sealed && a.envelopes == b.envelopes && a.providers == b.providers && a.sender == b.sender &&
            a.mode == b.mode
  {
    hide M.Decode, M.Valid, M.AllSized, M.PublicManifest.Sized, SigningHash, AllEnvelopes, AllProviders;
    DecodedSized(a.manifestBytes);
    DecodedSized(b.manifestBytes);
    var m, n := M.Decode(a.manifestBytes).value, M.Decode(b.manifestBytes).value;
    var x, y := SigningHash(a.With(m)), SigningHash(b.With(n));
    OutputInjective(EdSignature(a.sender.ed25519, x), EdSignature(b.sender.ed25519, y), ED_SIGNATURE_LEN);
    SigningHashBinds(a.With(m), b.With(n));
    SealedSplits(a.sealed, b.sealed);
  }

  lemma SealedSplits(a: Sealed, b: Sealed)
    requires a.Sized() && b.Sized() && a.Hash() == b.Hash()
    ensures a == b
  {
    OutputInjective(Blake3(a.nonce + a.ciphertext), Blake3(b.nonce + b.ciphertext), KEY_LEN);
    SplitAt(a.nonce, a.ciphertext, b.nonce, b.ciphertext);
  }

  // --- The offer on the wire ---

  /** Keys 5 to 8. */
  function PutEnd(o: TransferOffer): Bytes
    requires o.Sized()
  {
    PutUint(5, PutDevice(o.sender, PutUint(6, PutScope(o.scope, PutUint(7, PutUint(ModeNumber(o.mode), PutUint(8,
      PutSignature(o.signature, []))))))))
  }

  /** Keys 3 and 4. */
  function PutLists(envelopes: seq<Envelope>, providers: seq<Provider>, tail: Bytes): Bytes
    requires |envelopes| < U64_LIMIT && |providers| < U64_LIMIT && AllEnvelopes(envelopes) && AllProviders(providers)
  {
    PutUint(3, PutArray(|envelopes|, PutEnvelopes(envelopes, PutUint(4, PutArray(|providers|,
      PutProviders(providers, tail))))))
  }

  /** Keys 0 to 2, in front of the rest. */
  function PutFront(o: TransferOffer, tail: Bytes): Bytes
    requires o.Sized()
  {
    PutMap(9, PutUint(0, PutBytes(o.manifestBytes, PutUint(1, PutBytes(o.sealed.nonce, PutUint(2,
      PutBytes(o.sealed.ciphertext, tail)))))))
  }

  function PutMiddle(o: TransferOffer, tail: Bytes): Bytes
    requires o.Sized()
  {
    PutLists(o.envelopes, o.providers, tail)
  }

  function EncodeOffer(o: TransferOffer): Bytes
    requires o.Sized()
  {
    PutFront(o, PutMiddle(o, PutEnd(o)))
  }

  function ReadEnvelope(c: Cursor): Result<(Envelope, Cursor), OfferError> {
    var m :- OrElse(c.Map(), OfferError.Encoding);
    var (recipient, m0) :- OrElse(m.KeyBlobOf(0, KEY_LEN), OfferError.Encoding);
    var (nonce, m1) :- OrElse(m0.KeyBlobOf(1, NONCE_LEN), OfferError.Encoding);
    var (ciphertext, m2) :- OrElse(m1.KeyBlob(2), OfferError.Encoding);
    var c' :- OrElse(m2.Done(), OfferError.Encoding);
    Ok((Envelope(recipient, nonce, ciphertext), c'))
  }

  function ReadEnvelopes(n: nat, c: Cursor): Result<(seq<Envelope>, Cursor), OfferError> {
    if n == 0 then Ok(([], c))
    else
      var (e, c1) :- ReadEnvelope(c);
      var (rest, c2) :- ReadEnvelopes(n - 1, c1);
      Ok(([e] + rest, c2))
  }

  function ReadProvider(c: Cursor): Result<(Provider, Cursor), OfferError> {
    var m :- OrElse(c.Map(), OfferError.Encoding);
    var (kind, m0) :- OrElse(m.KeyUint(0), OfferError.Encoding);
    var (address, m1) :- OrElse(m0.KeyBlob(1), OfferError.Encoding);
    var c' :- OrElse(m1.Done(), OfferError.Encoding);
    if |address| > MAX_ADDRESS then Err(ValueTooLong) else Ok((Provider(kind, address), c'))
  }

  function ReadProviders(n: nat, c: Cursor): Result<(seq<Provider>, Cursor), OfferError> {
    if n == 0 then Ok(([], c))
    else
      var (p, c1) :- ReadProvider(c);
      var (rest, c2) :- ReadProviders(n - 1, c1);
      Ok(([p] + rest, c2))
  }

  function ReadScope(c: Cursor): Result<(Scope, Cursor), OfferError> {
    var m :- OrElse(c.Map(), OfferError.Encoding);
    var (kind, m0) :- OrElse(m.KeyUint(0), OfferError.Encoding);
    var (id, m1) :- OrElse(m0.KeyBlob(1), OfferError.Encoding);
    var c' :- OrElse(m1.Done(), OfferError.Encoding);
    if |id| > MAX_ADDRESS then Err(ValueTooLong) else Ok((Scope(kind, id), c'))
  }

  function ReadMode(v: U64): Result<AuthMode, OfferError> {
    if v == 0 then Ok(BoundSessionMac) else if v == 1 then Ok(StandaloneHybridSignature) else Err(UnsupportedAuthMode)
  }

  function ReadEnd(m: MapReader): Result<(DevicePublic, Scope, AuthMode, HybridSignature), OfferError> {
    var m5 :- OrElse(m.Key(5), OfferError.Encoding);
    var (sender, c5) :- OrElse(ReadDevice(m5.reader), OfferError.Encoding);
    var m6 :- OrElse(m5.(reader := c5).Key(6), OfferError.Encoding);
    var (scope, c6) :- ReadScope(m6.reader);
    var (number, m7) :- OrElse(m6.(reader := c6).KeyUint(7), OfferError.Encoding);
    var mode :- ReadMode(number);
    var m8 :- OrElse(m7.Key(8), OfferError.Encoding);
    var (signature, c8) :- OrElse(ReadSignature(m8.reader), OfferError.Encoding);
    var _ :- OrElse(EndOf(m8.(reader := c8)), OfferError.Encoding);
    Ok((sender, scope, mode, signature))
  }

  /** Keys 3 to 8, to the end of the input. */
  function ReadLists(m: MapReader): Result<(seq<Envelope>, seq<Provider>, MapReader), OfferError> {
    var m3 :- OrElse(m.Key(3), OfferError.Encoding);
    var (n, c3) :- OrElse(m3.reader.Array(), OfferError.Encoding);
    if n > MAX_ENVELOPES then Err(TooManyEnvelopes)
    else
      var (envelopes, c4) :- ReadEnvelopes(n, c3);
      var m4 :- OrElse(m3.(reader := c4.Leave()).Key(4), OfferError.Encoding);
      var (k, c5) :- OrElse(m4.reader.Array(), OfferError.Encoding);
      if k > MAX_PROVIDERS then Err(TooManyProviders)
      else
        var (providers, c6) :- ReadProviders(k, c5);
        Ok((envelopes, providers, m4.(reader := c6.Leave())))
  }

  function DecodeOffer(bytes: Bytes): Result<TransferOffer, OfferError> {
    var c :- OrElse(Control(bytes), OfferError.Encoding);
    var m :- OrElse(c.Map(), OfferError.Encoding);
    var (manifestBytes, m0) :- OrElse(m.KeyBlob(0), OfferError.Encoding);
    var (nonce, m1) :- OrElse(m0.KeyBlobOf(1, NONCE_LEN), OfferError.Encoding);
    var (ciphertext, m2) :- OrElse(m1.KeyBlob(2), OfferError.Encoding);
    var (envelopes, providers, m4) :- ReadLists(m2);
    var (sender, scope, mode, signature) :- ReadEnd(m4);
    if envelopes == [] then Err(NoEnvelope)
    else Ok(TransferOffer(manifestBytes, Sealed.Sealed(nonce, ciphertext), envelopes, providers, sender, scope, mode,
                          signature))
  }

  lemma EnvelopeCanonical(c: Cursor)
    requires ReadEnvelope(c).Ok?
    ensures var (e, c') := ReadEnvelope(c).value; e.Sized() && c.buf == PutEnvelope(e, c'.buf) && c'.depth == c.depth
  {
    hide PutHead, Cursor.Map, MapReader.KeyBlob, MapReader.KeyBlobOf, MapReader.Done;
  }

  lemma {:induction false} EnvelopesCanonical(n: nat, c: Cursor)
    requires ReadEnvelopes(n, c).Ok?
    ensures var (s, c') := ReadEnvelopes(n, c).value;
            |s| == n && AllEnvelopes(s) && c.buf == PutEnvelopes(s, c'.buf) && c'.depth == c.depth
  {
    hide PutEnvelope, ReadEnvelope;
    if n > 0 {
      EnvelopeCanonical(c);
      var (e, c1) := ReadEnvelope(c).value;
      EnvelopesCanonical(n - 1, c1);
      var rest := ReadEnvelopes(n - 1, c1).value.0;
      assert ([e] + rest)[1..] == rest;
    }
  }

  lemma ProviderCanonical(c: Cursor)
    requires ReadProvider(c).Ok?
    ensures var (p, c') := ReadProvider(c).value;
            p.Sized() && |p.address| <= MAX_ADDRESS && c.buf == PutProvider(p, c'.buf) && c'.depth == c.depth
  {
    hide PutHead, Cursor.Map, MapReader.KeyBlob, MapReader.KeyUint, MapReader.Done;
  }

  lemma {:induction false} ProvidersCanonical(n: nat, c: Cursor)
    requires ReadProviders(n, c).Ok?
    ensures var (s, c') := ReadProviders(n, c).value;
            && |s| == n && AllProviders(s) && AllShort(s)
            && c.buf == PutProviders(s, c'.buf) && c'.depth == c.depth
  {
    hide PutProvider, ReadProvider;
    if n > 0 {
      ProviderCanonical(c);
      var (p, c1) := ReadProvider(c).value;
      ProvidersCanonical(n - 1, c1);
      var rest := ReadProviders(n - 1, c1).value.0;
      assert ([p] + rest)[1..] == rest;
    }
  }

  lemma ScopeCanonical(c: Cursor)
    requires ReadScope(c).Ok?
    ensures var (s, c') := ReadScope(c).value;
            s.Sized() && |s.id| <= MAX_ADDRESS && c.buf == PutScope(s, c'.buf) && c'.depth == c.depth
  {
    hide PutHead, Cursor.Map, MapReader.KeyBlob, MapReader.KeyUint, MapReader.Done;
  }

  lemma EndCanonical(m: MapReader, o: TransferOffer)
    requires ReadEnd(m).Ok? && ReadEnd(m).value == (o.sender, o.scope, o.mode, o.signature)
    ensures m.remaining == 4 && o.sender.Sized() && o.scope.Sized() && |o.scope.id| <= MAX_ADDRESS &&
            o.signature.Sized()
    ensures o.Sized() ==> m.reader.buf == PutEnd(o)
  {
    hide PutHead, PutUint, PutDevice, PutScope, PutSignature, ReadDevice, ReadScope, ReadSignature, EndOf,
         MapReader.Key, MapReader.KeyUint, AllEnvelopes, AllProviders;
    var m5 := m.Key(5).value;
    DeviceCanonical(m5.reader);
    var m6 := m5.(reader := ReadDevice(m5.reader).value.1).Key(6).value;
    ScopeCanonical(m6.reader);
    var m8 := m6.(reader := ReadScope(m6.reader).value.1).KeyUint(7).value.1.Key(8).value;
    SignatureCanonical(m8.reader);
  }

  lemma ListsCanonical(m: MapReader)
    requires ReadLists(m).Ok?
    ensures var (envelopes, providers, m') := ReadLists(m).value;
            && |envelopes| <= MAX_ENVELOPES && |providers| <= MAX_PROVIDERS
            && AllEnvelopes(envelopes) && AllProviders(providers) && AllShort(providers)
            && m'.remaining == m.remaining - 2 && m'.last == Some(4)
            && m.reader.buf == PutLists(envelopes, providers, m'.reader.buf)
  {
    hide PutHead, PutUint, PutArray, PutEnvelopes, PutProviders, ReadEnvelopes, ReadProviders, MapReader.Key,
         Cursor.Array, AllEnvelopes, AllProviders, AllShort;
    var m3 := m.Key(3).value;
    var (n, c3) := m3.reader.Array().value;
    EnvelopesCanonical(n, c3);
    var m4 := m3.(reader := ReadEnvelopes(n, c3).value.1.Leave()).Key(4).value;
    var (k, c5) := m4.reader.Array().value;
    ProvidersCanonical(k, c5);
  }

  /** Bytes that decode as an offer are its encoding. */
  lemma OfferCanonical(bytes: Bytes)
    requires DecodeOffer(bytes).Ok?
    ensures var o := DecodeOffer(bytes).value; o.Sized() && o.Wireable() && bytes == EncodeOffer(o)
    ensures |bytes| <= MAX_CONTROL_SIZE
  {
    hide PutHead, PutUint, PutBytes, PutLists, PutEnd, ReadLists, ReadEnd, Cursor.Map, MapReader.KeyBlob,
         MapReader.KeyBlobOf, AllEnvelopes, AllProviders, AllShort;
    var m2 := Cursor(bytes, 0).Map().value.KeyBlob(0).value.1.KeyBlobOf(1, NONCE_LEN).value.1.KeyBlob(2).value.1;
    ListsCanonical(m2);
    EndCanonical(ReadLists(m2).value.2, DecodeOffer(bytes).value);
  }

  lemma EnvelopeReads(e: Envelope, tail: Bytes, d: nat)
    requires e.Sized() && d < MAX_DEPTH
    ensures ReadEnvelope(Cursor(PutEnvelope(e, tail), d)) == Ok((e, Cursor(tail, d)))
  {
    hide PutHead, PutUint, PutBytes, PutMap, Cursor.Uint, Cursor.Blob, Cursor.Map;
    ReadsBack();
  }

  lemma {:induction false} EnvelopesRead(s: seq<Envelope>, tail: Bytes, d: nat)
    requires AllEnvelopes(s) && d < MAX_DEPTH
    ensures ReadEnvelopes(|s|, Cursor(PutEnvelopes(s, tail), d)) == Ok((s, Cursor(tail, d)))
    decreases |s|
  {
    hide PutEnvelope, ReadEnvelope;
    if s != [] {
      EnvelopeReads(s[0], PutEnvelopes(s[1..], tail), d);
      EnvelopesRead(s[1..], tail, d);
      assert [s[0]] + s[1..] == s;
    }
  }

  lemma ProviderReads(p: Provider, tail: Bytes, d: nat)
    requires p.Sized() && |p.address| <= MAX_ADDRESS && d < MAX_DEPTH
    ensures ReadProvider(Cursor(PutProvider(p, tail), d)) == Ok((p, Cursor(tail, d)))
  {
    hide PutHead, PutUint, PutBytes, PutMap, Cursor.Uint, Cursor.Blob, Cursor.Map;
    ReadsBack();
  }

  lemma {:induction false} ProvidersRead(s: seq<Provider>, tail: Bytes, d: nat)
    requires AllProviders(s) && AllShort(s) && d < MAX_DEPTH
    ensures ReadProviders(|s|, Cursor(PutProviders(s, tail), d)) == Ok((s, Cursor(tail, d)))
    decreases |s|
  {
    hide PutProvider, ReadProvider;
    if s != [] {
      ProviderReads(s[0], PutProviders(s[1..], tail), d);
      ProvidersRead(s[1..], tail, d);
      assert [s[0]] + s[1..] == s;
    }
  }

  lemma ScopeReads(s: Scope, tail: Bytes, d: nat)
    requires s.Sized() && |s.id| <= MAX_ADDRESS && d < MAX_DEPTH
    ensures ReadScope(Cursor(PutScope(s, tail), d)) == Ok((s, Cursor(tail, d)))
  {
    hide PutHead, PutUint, PutBytes, PutMap, Cursor.Uint, Cursor.Blob, Cursor.Map;
    ReadsBack();
  }

  lemma ListsRead(envelopes: seq<Envelope>, providers: seq<Provider>, tail: Bytes)
    requires |envelopes| <= MAX_ENVELOPES && |providers| <= MAX_PROVIDERS
    requires AllEnvelopes(envelopes) && AllProviders(providers) && AllShort(providers)
    ensures ReadLists(MapReader(Cursor(PutLists(envelopes, providers, tail), 1), 6, Some(2))) ==
            Ok((envelopes, providers, MapReader(Cursor(tail, 1), 4, Some(4))))
  {
    hide PutHead, PutUint, PutArray, PutEnvelopes, PutProviders, ReadEnvelopes, ReadProviders, Cursor.Uint,
         Cursor.Array, AllEnvelopes, AllProviders, AllShort;
    ReadsBack();
    EnvelopesRead(envelopes, PutUint(4, PutArray(|providers|, PutProviders(providers, tail))), 2);
    ProvidersRead(providers, tail, 2);
  }

  lemma EndReads(o: TransferOffer)
    requires o.Sized() && |o.scope.id| <= MAX_ADDRESS
    ensures ReadEnd(MapReader(Cursor(PutEnd(o), 1), 4, Some(4))) == Ok((o.sender, o.scope, o.mode, o.signature))
  {
    hide PutHead, PutUint, PutDevice, PutScope, PutSignature, ReadDevice, ReadScope, ReadSignature, Cursor.Uint,
         AllEnvelopes, AllProviders;
    ReadsBack();
    var x := PutUint(7, PutUint(ModeNumber(o.mode), PutUint(8, PutSignature(o.signature, []))));
    SignatureReads(o.signature, [], 1);
    ScopeReads(o.scope, x, 1);
    DeviceReads(o.sender, PutUint(6, PutScope(o.scope, x)), 1);
  }

  lemma EndPeels(a: TransferOffer, b: TransferOffer)
    requires a.Sized() && b.Sized() && PutEnd(a) == PutEnd(b)
    ensures a.sender == b.sender && a.scope == b.scope && a.mode == b.mode && a.signature == b.signature
  {
    hide PutUint, PutDevice, PutScope, PutSignature, AllEnvelopes, AllProviders;
    Peels();
    var x := PutUint(7, PutUint(ModeNumber(a.mode), PutUint(8, PutSignature(a.signature, []))));
    var y := PutUint(7, PutUint(ModeNumber(b.mode), PutUint(8, PutSignature(b.signature, []))));
    DevicePeels(a.sender, PutUint(6, PutScope(a.scope, x)), b.sender, PutUint(6, PutScope(b.scope, y)));
    ScopePeels(a.scope, x, b.scope, y);
    SignaturePeels(a.signature, [], b.signature, []);
  }

  lemma MiddlePeels(a: TransferOffer, x: Bytes, b: TransferOffer, y: Bytes)
    requires a.Sized() && b.Sized() && PutMiddle(a, x) == PutMiddle(b, y)
    ensures a.envelopes == b.envelopes && a.providers == b.providers && x == y
  {
    hide PutUint, PutArray, PutEnvelopes, PutProviders, AllEnvelopes, AllProviders;
    Peels();
    EnvelopesPeel(a.envelopes, PutUint(4, PutArray(|a.providers|, PutProviders(a.providers, x))),
                  b.envelopes, PutUint(4, PutArray(|b.providers|, PutProviders(b.providers, y))));
    ProvidersPeel(a.providers, x, b.providers, y);
  }

  lemma FrontPeels(a: TransferOffer, x: Bytes, b: TransferOffer, y: Bytes)
    requires a.Sized() && b.Sized() && PutFront(a, x) == PutFront(b, y)
    ensures a.manifestBytes == b.manifestBytes && a.sealed == b.sealed && x == y
  {
    hide PutUint, PutBytes, PutMap, AllEnvelopes, AllProviders;
    Peels();
  }

  /** Encodings of different offers differ. */
  lemma OfferInjective(a: TransferOffer, b: TransferOffer)
    requires a.Sized() && b.Sized() && EncodeOffer(a) == EncodeOffer(b)
    ensures a == b
  {
    hide PutFront, PutMiddle, PutEnd, TransferOffer.Sized;
    FrontPeels(a, PutMiddle(a, PutEnd(a)), b, PutMiddle(b, PutEnd(b)));
    MiddlePeels(a, PutEnd(a), b, PutEnd(b));
    EndPeels(a, b);
  }

  lemma WireableReads(o: TransferOffer)
    requires o.Sized() && o.Wireable() && |EncodeOffer(o)| <= MAX_CONTROL_SIZE
    ensures DecodeOffer(EncodeOffer(o)) == Ok(o)
  {
    hide PutHead, PutUint, PutBytes, PutMap, PutLists, PutEnd, ReadLists, ReadEnd, Cursor.Uint, Cursor.Blob, Cursor.Map,
         AllEnvelopes, AllProviders, AllShort;
    ReadsBack();
    ListsRead(o.envelopes, o.providers, PutEnd(o));
    EndReads(o);
  }

  /**
   An offer reads back exactly when it is within the decoder's limits and fits a control object;
   else it is refused.
   */
  lemma OfferReads(o: TransferOffer)
    requires o.Sized()
    ensures if o.Wireable() && |EncodeOffer(o)| <= MAX_CONTROL_SIZE then DecodeOffer(EncodeOffer(o)) == Ok(o)
            else DecodeOffer(EncodeOffer(o)).Err?
  {
    hide EncodeOffer, DecodeOffer, TransferOffer.Sized, TransferOffer.Wireable;
    if o.Wireable() && |EncodeOffer(o)| <= MAX_CONTROL_SIZE {
      WireableReads(o);
    } else if DecodeOffer(EncodeOffer(o)).Ok? {
      OfferCanonical(EncodeOffer(o));
      OfferInjective(o, DecodeOffer(EncodeOffer(o)).value);
    }
  }

  /**
   Creation checks no address length: what it makes reaches a recipient only if its scope and
   addresses are short enough.
   */
  lemma CreatedArrives(identity: H.DeviceIdentity, m: M.PublicManifest, sealed: Sealed, envelopes: seq<Envelope>,
                       providers: seq<Provider>, scope: Scope, coin: Option<nat>)
    requires m.Sized() && sealed.Sized() && AllEnvelopes(envelopes) && AllProviders(providers) && scope.Sized()
    requires Create(identity, m, sealed, envelopes, providers, scope, coin).Ok? && |M.Encode(m)| < U64_LIMIT
    ensures var o := Create(identity, m, sealed, envelopes, providers, scope, coin).value;
            && o.Sized()
            && (DecodeOffer(EncodeOffer(o)) == Ok(o) <==>
                  |scope.id| <= MAX_ADDRESS && AllShort(providers) && |EncodeOffer(o)| <= MAX_CONTROL_SIZE)
  {
    hide M.Encode, M.Valid, M.AllSized, SigningHash, H.Sign, H.DeviceIdentity.Public, Sealed.Hash, AllEnvelopes,
         AllProviders,
         AllShort, EncodeOffer, DecodeOffer;
    OfferReads(Create(identity, m, sealed, envelopes, providers, scope, coin).value);
  }

  /** An offer with a scope that is too long is created, verifies, and is refused by every recipient. */
  lemma LongScopeIsLost(identity: H.DeviceIdentity, m: M.PublicManifest, sealed: Sealed, envelopes: seq<Envelope>,
                        providers: seq<Provider>, scope: Scope, coin: Option<nat>, now: U64)
    requires m.Sized() && sealed.Sized() && AllEnvelopes(envelopes) && AllProviders(providers) && scope.Sized()
    requires Create(identity, m, sealed, envelopes, providers, scope, coin).Ok? && |M.Encode(m)| < U64_LIMIT
    requires m.Known() && now < m.expiresAt && |scope.id| > MAX_ADDRESS
    ensures var o := Create(identity, m, sealed, envelopes, providers, scope, coin).value;
            && o.Sized()
            && VerifyOffer(o, scope, now) == Ok(m) && DecodeOffer(EncodeOffer(o)).Err?
  {
    hide M.Encode, M.Valid, M.AllSized, SigningHash, H.Sign, H.DeviceIdentity.Public, Sealed.Hash, AllEnvelopes,
         AllProviders, M.PublicManifest.Known, EncodeOffer, DecodeOffer, VerifyOffer, AllShort;
    CreatedVerifies(identity, m, sealed, envelopes, providers, scope, coin, now);
    OfferReads(Create(identity, m, sealed, envelopes, providers, scope, coin).value);
  }

  /** What can be offered: a valid manifest, one to 64 envelopes, at most 32 providers, the right sealed manifest. */
  lemma CreatesIff(identity: H.DeviceIdentity, m: M.PublicManifest, sealed: Sealed, envelopes: seq<Envelope>,
                   providers: seq<Provider>, scope: Scope, coin: Option<nat>)
    requires m.Sized() && sealed.Sized() && AllEnvelopes(envelopes) && AllProviders(providers) && scope.Sized()
    ensures Create(identity, m, sealed, envelopes, providers, scope, coin).Ok? <==>
            && M.Valid(m) && 0 < |envelopes| <= MAX_ENVELOPES && |providers| <= MAX_PROVIDERS
            && m.privateHash == sealed.Hash() && coin.Some?
  {
    hide M.Encode, M.Valid, M.AllSized, SigningHash, H.Sign, H.DeviceIdentity.Public, Sealed.Hash, AllEnvelopes,
         AllProviders;
  }

  /** There is one: a scope of 513 bytes, for an empty file. */
  lemma LongScopeExists(identity: H.DeviceIdentity, coin: nat)
    returns (m: M.PublicManifest, sealed: Sealed, envelopes: seq<Envelope>, scope: Scope)
    ensures m.Sized() && sealed.Sized() && AllEnvelopes(envelopes) && scope.Sized() && |scope.id| == MAX_ADDRESS + 1
    ensures Create(identity, m, sealed, envelopes, [], scope, Some(coin)).Ok?
    ensures var o := Create(identity, m, sealed, envelopes, [], scope, Some(coin)).value;
            o.Sized() && VerifyOffer(o, scope, 0) == Ok(m) && DecodeOffer(EncodeOffer(o)).Err?
  {
    hide M.Encode, M.Valid, M.EmptyFileManifest, Create, Sealed.Hash, EncodeOffer, DecodeOffer, VerifyOffer,
         M.PublicManifest.Known, M.PublicManifest.Sized, TransferOffer.Sized;
    sealed := Sealed.Sealed(Zeros(NONCE_LEN), []);
    m := M.EmptyFileManifest(sealed.Hash());
    M.EmptyFileIsValid(sealed.Hash());
    envelopes := [Envelope(Zeros(KEY_LEN), Zeros(NONCE_LEN), [])];
    scope := Scope(0, Zeros(MAX_ADDRESS + 1));
    CreatesIff(identity, m, sealed, envelopes, [], scope, Some(coin));
    LongScopeIsLost(identity, m, sealed, envelopes, [], scope, Some(coin), 0);
  }

  function Zeros(n: nat): (z: Bytes)
    ensures |z| == n
  {
    seq(n, _ => Lit(0))
  }
}
