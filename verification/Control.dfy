/**
 Control-frame protection (`control.rs`): a chain of key epochs, a send counter and a
 receive watermark per endpoint, and adoption of the peer's next epoch on receipt.
 */
module Control {
  import opened Octets

  const MAX_FRAMES_PER_EPOCH := U32_LIMIT

  datatype Direction = ClientToServer | ServerToClient {
    function Code(): Byte { if ClientToServer? then 0 else 1 }
    function Opposite(): Direction { if ClientToServer? then ServerToClient else ClientToServer }
  }

  datatype ControlError = Decrypt | Replay | StaleEpoch | EpochGap | CounterExhausted | Malformed

  // --- Key schedule, nonce and associated data ---

  function AdvancePrk(prk: Bytes, next: U64): Bytes {
    Output(Extract(Ascii("RTP2-EPOCH-SALT-v1") + BigEndian(next, 8), prk), 48)
  }

  function ControlKey(prk: Bytes, th2: Bytes, d: Direction): Bytes {
    Output(Expand(prk, Ascii(if d.ClientToServer? then "RTP2 control c2s v1" else "RTP2 control s2c v1") + th2), 32)
  }

  function Nonce(d: Direction, epoch: U64, counter: U64): Bytes {
    Output(Blake3Key(Ascii("Reyta RTP2 2026-08-01 control nonce v1"),
                     [Lit(d.Code())] + (BigEndian(epoch, 8) + BigEndian(counter, 8))), 24)
  }

  /** The fields of a frame that are sent beside its ciphertext. */
  datatype Head = Head(epoch: U64, counter: U64, frameType: Byte, flags: Byte, requestId: U64)

  function Aad(d: Direction, h: Head): Bytes {
    Ascii("RTP2CTRL") + (BigEndian(PROTOCOL_MAJOR, 2) + (BigEndian(SUITE_ID, 2) + ([Lit(d.Code())] +
      (BigEndian(h.epoch, 8) + (BigEndian(h.counter, 8) +
                                ([Lit(h.frameType)] + ([Lit(h.flags)] + BigEndian(h.requestId, 8))))))))
  }

  lemma AadInjective(d: Direction, h: Head, d': Direction, h': Head)
    requires Aad(d, h) == Aad(d', h')
    ensures d == d' && h == h'
  {
    var x8 := [Lit(h.flags)] + BigEndian(h.requestId, 8);
    var x7 := [Lit(h.frameType)] + x8;
    var x6 := BigEndian(h.counter, 8) + x7;
    var x5 := BigEndian(h.epoch, 8) + x6;
    var x4 := [Lit(d.Code())] + x5;
    var y8 := [Lit(h'.flags)] + BigEndian(h'.requestId, 8);
    var y7 := [Lit(h'.frameType)] + y8;
    var y6 := BigEndian(h'.counter, 8) + y7;
    var y5 := BigEndian(h'.epoch, 8) + y6;
    var y4 := [Lit(d'.Code())] + y5;
    var major, suite := BigEndian(PROTOCOL_MAJOR, 2), BigEndian(SUITE_ID, 2);
    SplitAt(Ascii("RTP2CTRL"), major + (suite + x4), Ascii("RTP2CTRL"), major + (suite + y4));
    SplitAt(major, suite + x4, major, suite + y4);
    SplitAt(suite, x4, suite, y4);
    SplitAt([Lit(d.Code())], x5, [Lit(d'.Code())], y5);
    SplitAt(BigEndian(h.epoch, 8), x6, BigEndian(h'.epoch, 8), y6);
    SplitAt(BigEndian(h.counter, 8), x7, BigEndian(h'.counter, 8), y7);
    SplitAt([Lit(h.frameType)], x8, [Lit(h'.frameType)], y8);
    SplitAt([Lit(h.flags)], BigEndian(h.requestId, 8), [Lit(h'.flags)], BigEndian(h'.requestId, 8));
    Pow256Values();
    BigEndianInjective(h.epoch, h'.epoch, 8);
    BigEndianInjective(h.counter, h'.counter, 8);
    BigEndianInjective(h.requestId, h'.requestId, 8);
    assert [Lit(d.Code())][0] == [Lit(d'.Code())][0];
    assert [Lit(h.frameType)][0] == [Lit(h'.frameType)][0];
    assert [Lit(h.flags)][0] == [Lit(h'.flags)][0];
  }

  lemma NonceInjective(d: Direction, e: U64, c: U64, d': Direction, e': U64, c': U64)
    requires Nonce(d, e, c) == Nonce(d', e', c')
    ensures d == d' && e == e' && c == c'
  {
    var x, y := BigEndian(e, 8) + BigEndian(c, 8), BigEndian(e', 8) + BigEndian(c', 8);
    var context := Ascii("Reyta RTP2 2026-08-01 control nonce v1");
    OutputInjective(Blake3Key(context, [Lit(d.Code())] + x), Blake3Key(context, [Lit(d'.Code())] + y), 24);
    SplitAt([Lit(d.Code())], x, [Lit(d'.Code())], y);
    SplitAt(BigEndian(e, 8), BigEndian(c, 8), BigEndian(e', 8), BigEndian(c', 8));
    Pow256Values();
    BigEndianInjective(e, e', 8);
    BigEndianInjective(c, c', 8);
    assert [Lit(d.Code())][0] == [Lit(d'.Code())][0];
  }

  // --- One endpoint ---

  datatype EpochKeys = EpochKeys(epoch: U64, c2s: Bytes, s2c: Bytes) {
    function For(d: Direction): Bytes { if d.ClientToServer? then c2s else s2c }
  }

  function DeriveEpoch(prk: Bytes, th2: Bytes, epoch: U64): EpochKeys {
    EpochKeys(epoch, ControlKey(prk, th2, ClientToServer), ControlKey(prk, th2, ServerToClient))
  }

  datatype Frame = Frame(head: Head, ciphertext: Bytes)

  datatype Channel = Channel(sends: Direction, epochPrk: Bytes, th2: Bytes, keys: EpochKeys, sendCounter: nat,
                             watermark: nat)

  function NewChannel(prk: Bytes, th2: Bytes, sends: Direction): Channel {
    Channel(sends, prk, th2, DeriveEpoch(prk, th2, 0), 0, 0)
  }

  /** The result of sealing and the state afterwards. */
  function SealStep(ch: Channel, frameType: Byte, flags: Byte, requestId: U64,
                    plaintext: Bytes): (Channel, Result<Frame, ControlError>) {
    if ch.sendCounter >= MAX_FRAMES_PER_EPOCH then (ch, Err(CounterExhausted))
    else
      var h := Head(ch.keys.epoch, ch.sendCounter, frameType, flags, requestId);
      var c := Seal(ch.keys.For(ch.sends), Nonce(ch.sends, h.epoch, h.counter), Aad(ch.sends, h), plaintext);
      (ch.(sendCounter := ch.sendCounter + 1), Ok(Frame(h, c)))
  }

  /** The epoch number is 64-bit, and an optimised build wraps it. */
  function After(epoch: U64): U64 {
    (epoch + 1) % U64_LIMIT
  }

  /** The next epoch, as `begin_next_epoch` and an adopting `open` both reach it. */
  function NextEpoch(ch: Channel): Channel {
    var next := After(ch.keys.epoch);
    var prk := AdvancePrk(ch.epochPrk, next);
    Channel(ch.sends, prk, ch.th2, DeriveEpoch(prk, ch.th2, next), 0, 0)
  }

  /** Opening: policy, replay and counter checks, then the AEAD; only success moves the state. */
  function OpenStep(ch: Channel, f: Frame): (Channel, Result<Bytes, ControlError>) {
    var h := f.head;
    var d := ch.sends.Opposite();
    if h.epoch < ch.keys.epoch then (ch, Err(StaleEpoch))
    else if h.epoch > After(ch.keys.epoch) then (ch, Err(EpochGap))
    else
      var adopted := if h.epoch == ch.keys.epoch then ch else NextEpoch(ch);
      if h.epoch == ch.keys.epoch && h.counter < ch.watermark then (ch, Err(Replay))
      else if h.counter >= MAX_FRAMES_PER_EPOCH then (ch, Err(Malformed))
      else
        var plain := Open(adopted.keys.For(d), Nonce(d, h.epoch, h.counter), Aad(d, h), f.ciphertext);
        if plain.None? then (ch, Err(Decrypt))
        else (adopted.(watermark := h.counter + 1), Ok(plain.value))
  }

  /** The mutable channel: the source's object, method by method. */
  class ControlChannel {
    const sends: Direction
    const th2: Bytes
    var epochPrk: Bytes
    var keys: EpochKeys
    var sendCounter: nat
    var watermark: nat

    ghost function State(): Channel
      reads this
    {
      Channel(sends, epochPrk, th2, keys, sendCounter, watermark)
    }

    constructor (prk: Bytes, th2: Bytes, sends: Direction)
      ensures State() == NewChannel(prk, th2, sends)
    {
      this.sends := sends;
      this.th2 := th2;
      epochPrk := prk;
      keys := DeriveEpoch(prk, th2, 0);
      sendCounter := 0;
      watermark := 0;
    }

    method Seal(frameType: Byte, flags: Byte, requestId: U64, plaintext: Bytes) returns (r: Result<Frame, ControlError>)
      modifies this
      ensures (State(), r) == SealStep(old(State()), frameType, flags, requestId, plaintext)
    {
      if sendCounter >= MAX_FRAMES_PER_EPOCH {
        return Err(CounterExhausted);
      }
      var h := Head(keys.epoch, sendCounter, frameType, flags, requestId);
      var c := Octets.Seal(keys.For(sends), Nonce(sends, h.epoch, h.counter), Aad(sends, h), plaintext);
      sendCounter := sendCounter + 1;
      return Ok(Frame(h, c));
    }

    /** A failing frame advances nothing: neither the watermark nor the epoch. */
    method Open(f: Frame) returns (r: Result<Bytes, ControlError>)
      modifies this
      ensures (State(), r) == OpenStep(old(State()), f)
      ensures r.Err? ==> State() == old(State())
    {
      hide Octets.Open, Aad, Nonce, ControlKey, AdvancePrk;
      var h := f.head;
      var d := sends.Opposite();
      if h.epoch < keys.epoch {
        return Err(StaleEpoch);
      }
      if h.epoch > After(keys.epoch) {
        return Err(EpochGap);
      }
      var candidate: Option<(EpochKeys, Bytes)> := None;
      if h.epoch != keys.epoch {
        var prk := AdvancePrk(epochPrk, h.epoch);
        candidate := Some((DeriveEpoch(prk, th2, h.epoch), prk));
      }
      if candidate.None? && h.counter < watermark {
        return Err(Replay);
      }
      if h.counter >= MAX_FRAMES_PER_EPOCH {
        return Err(Malformed);
      }
      var key := if candidate.Some? then candidate.value.0.For(d) else keys.For(d);
      var plain := Octets.Open(key, Nonce(d, h.epoch, h.counter), Aad(d, h), f.ciphertext);
      if plain.None? {
        return Err(Decrypt);
      }
      if candidate.Some? {
        keys := candidate.value.0;
        epochPrk := candidate.value.1;
        sendCounter := 0;
        watermark := 0;
      }
      watermark := h.counter + 1;
      return Ok(plain.value);
    }

    method BeginNextEpoch()
      modifies this
      ensures State() == NextEpoch(old(State()))
      ensures keys.epoch == old(keys.epoch) + 1 <==> old(keys.epoch) + 1 < U64_LIMIT
    {
      var next := After(keys.epoch);
      var prk := AdvancePrk(epochPrk, next);
      keys := DeriveEpoch(prk, th2, next);
      epochPrk := prk;
      sendCounter := 0;
      watermark := 0;
    }
  }

  // --- Two endpoints and an arbitrary network ---

  /** A frame's header and contents, as a log remembers them. */
  datatype Entry = Entry(head: Head, plaintext: Bytes)

  /** One endpoint with what it has sealed and what it has accepted, in order. */
  datatype Endpoint = Endpoint(channel: Channel, sealed: seq<Entry>, accepted: seq<Entry>)

  datatype Session = Session(prk: Bytes, th2: Bytes, client: Endpoint, server: Endpoint) {
    function Get(d: Direction): Endpoint { if d.ClientToServer? then client else server }
    function Set(d: Direction, e: Endpoint): Session {
      if d.ClientToServer? then this.(client := e) else this.(server := e)
    }
  }

  function Start(prk: Bytes, th2: Bytes): Session {
    Session(prk, th2, Endpoint(NewChannel(prk, th2, ClientToServer), [], []),
            Endpoint(NewChannel(prk, th2, ServerToClient), [], []))
  }

  /** What can happen, at the endpoint that sends in direction `at`. */
  datatype Event =
    | Sealing(at: Direction, frameType: Byte, flags: Byte, requestId: U64, plaintext: Bytes)
    | Delivery(at: Direction, frame: Frame)
    | Rekey(at: Direction)

  function Step(s: Session, e: Event): Session {
    var here := s.Get(e.at);
    match e
    case Sealing(at, frameType, flags, requestId, plaintext) =>
      var (ch, r) := SealStep(here.channel, frameType, flags, requestId, plaintext);
      s.Set(at, Endpoint(ch, here.sealed + (if r.Ok? then [Entry(r.value.head, plaintext)] else []), here.accepted))
    case Delivery(at, frame) =>
      var (ch, r) := OpenStep(here.channel, frame);
      s.Set(at, Endpoint(ch, here.sealed, here.accepted + (if r.Ok? then [Entry(frame.head, r.value)] else [])))
    case Rekey(at) =>
      s.Set(at, here.(channel := NextEpoch(here.channel)))
  }

  /**
   The network may deliver any header with any ciphertext, in any order and any number of
   times. The one thing it cannot do is seal under a key of this session: a ciphertext
   that is sealed under such a key was sealed by an endpoint.
   */
  ghost predicate Possible(s: Session, e: Event) {
    match e
    case Sealing(_, _, _, _, _) => true
    case Delivery(_, frame) => Unforged(s, frame.ciphertext)
    case Rekey(_) => true
  }

  /** A rekey in the last epoch, after which the numbers start over. */
  predicate Wraps(s: Session, e: Event) {
    e.Rekey? && s.Get(e.at).channel.keys.epoch + 1 == U64_LIMIT
  }

  function PrkAt(prk: Bytes, epoch: nat): Bytes
    requires epoch < U64_LIMIT
  {
    if epoch == 0 then prk else AdvancePrk(PrkAt(prk, epoch - 1), epoch)
  }

  function KeyAt(s: Session, epoch: U64, d: Direction): Bytes {
    ControlKey(PrkAt(s.prk, epoch), s.th2, d)
  }

  /** The ciphertext of a sealed entry. */
  function Wire(s: Session, d: Direction, e: Entry): Bytes {
    Seal(KeyAt(s, e.head.epoch, d), Nonce(d, e.head.epoch, e.head.counter), Aad(d, e.head), e.plaintext)
  }

  ghost predicate SealedBy(s: Session, d: Direction, ciphertext: Bytes) {
    exists i :: 0 <= i < |s.Get(d).sealed| && ciphertext == Wire(s, d, s.Get(d).sealed[i])
  }

  ghost predicate Unforged(s: Session, ciphertext: Bytes) {
    forall epoch: U64, d: Direction, nonce, aad, p :: ciphertext == Seal(KeyAt(s, epoch, d), nonce, aad, p) ==>
      SealedBy(s, ClientToServer, ciphertext) || SealedBy(s, ServerToClient, ciphertext)
  }

  ghost predicate PossibleRun(s: Session, run: seq<Event>)
    decreases |run|
  {
    run == [] || (Possible(s, run[0]) && PossibleRun(Step(s, run[0]), run[1..]))
  }

  /** Nobody rekeys in the last epoch. */
  predicate Unwrapped(s: Session, run: seq<Event>)
    decreases |run|
  {
    run == [] || (!Wraps(s, run[0]) && Unwrapped(Step(s, run[0]), run[1..]))
  }

  function Run(s: Session, run: seq<Event>): Session
    decreases |run|
  {
    if run == [] then s else Run(Step(s, run[0]), run[1..])
  }

  // --- What every run keeps ---

  /** Lexicographic order on (epoch, counter). */
  predicate Before(e: nat, c: nat, e': nat, c': nat) {
    e < e' || (e == e' && c < c')
  }

  ghost predicate Increasing(log: seq<Entry>) {
    forall i, j :: 0 <= i < j < |log| ==>
        Before(log[i].head.epoch, log[i].head.counter, log[j].head.epoch, log[j].head.counter)
  }

  ghost predicate AllBefore(log: seq<Entry>, epoch: nat, counter: nat) {
    forall i :: 0 <= i < |log| ==> Before(log[i].head.epoch, log[i].head.counter, epoch, counter)
  }

  ghost predicate Linked(s: Session, d: Direction) {
    var ch := s.Get(d).channel;
    && ch.sends == d
    && ch.th2 == s.th2
    && ch.epochPrk == PrkAt(s.prk, ch.keys.epoch)
    && ch.keys == DeriveEpoch(ch.epochPrk, s.th2, ch.keys.epoch)
  }

  ghost predicate Ordered(s: Session, d: Direction) {
    var e := s.Get(d);
    && Increasing(e.sealed)
    && AllBefore(e.sealed, e.channel.keys.epoch, e.channel.sendCounter)
    && (forall i :: 0 <= i < |e.sealed| ==> e.sealed[i].head.counter < MAX_FRAMES_PER_EPOCH)
    && Increasing(e.accepted)
    && AllBefore(e.accepted, e.channel.keys.epoch, e.channel.watermark)
  }

  /** Everything accepted was sealed by the peer, header and contents alike. */
  ghost predicate Authentic(s: Session, d: Direction) {
    forall i :: 0 <= i < |s.Get(d).accepted| ==> s.Get(d).accepted[i] in s.Get(d.Opposite()).sealed
  }

  ghost predicate Invariant(s: Session) {
    forall d: Direction :: Linked(s, d) && Ordered(s, d) && Authentic(s, d)
  }

  /** A ciphertext of this session tells its direction, its header and its contents. */
  lemma WireDetermines(s: Session, d: Direction, e: Entry, d': Direction, e': Entry)
    requires Wire(s, d, e) == Wire(s, d', e')
    ensures d == d' && e == e'
  {
    hide Seal, Aad, Nonce, KeyAt;
    SealInjective(KeyAt(s, e.head.epoch, d), Nonce(d, e.head.epoch, e.head.counter), Aad(d, e.head), e.plaintext,
                  KeyAt(s, e'.head.epoch, d'), Nonce(d', e'.head.epoch, e'.head.counter), Aad(d', e'.head),
                  e'.plaintext);
    AadInjective(d, e.head, d', e'.head);
  }

  /** What opens is what the peer's key of that epoch sealed under that header. */
  lemma OpensOnlyWire(s: Session, at: Direction, f: Frame)
    requires Linked(s, at)
    requires OpenStep(s.Get(at).channel, f).1.Ok?
    ensures f.ciphertext == Wire(s, at.Opposite(), Entry(f.head, OpenStep(s.Get(at).channel, f).1.value))
  {
    hide Seal, Aad, Nonce, Open, ControlKey, AdvancePrk;
  }

  /** An accepted frame is the peer's: same direction, same header, same plaintext. */
  lemma AcceptedWasSealed(s: Session, at: Direction, f: Frame)
    requires Linked(s, at) && Unforged(s, f.ciphertext)
    requires OpenStep(s.Get(at).channel, f).1.Ok?
    ensures Entry(f.head, OpenStep(s.Get(at).channel, f).1.value) in s.Get(at.Opposite()).sealed
  {
    hide OpenStep, Seal, Aad, Nonce, KeyAt;
    OpensOnlyWire(s, at, f);
    var d, e := at.Opposite(), Entry(f.head, OpenStep(s.Get(at).channel, f).1.value);
    assert f.ciphertext == Seal(KeyAt(s, e.head.epoch, d), Nonce(d, e.head.epoch, e.head.counter), Aad(d, e.head),
                                e.plaintext);
    var who := if SealedBy(s, ClientToServer, f.ciphertext) then ClientToServer else ServerToClient;
    var i :| 0 <= i < |s.Get(who).sealed| && f.ciphertext == Wire(s, who, s.Get(who).sealed[i]);
    WireDetermines(s, d, e, who, s.Get(who).sealed[i]);
  }

  lemma {:induction false} SealingKeeps(s: Session, e: Event)
    requires Invariant(s) && e.Sealing?
    ensures Invariant(Step(s, e))
  {
    hide Aad, Nonce, PrkAt, Seal, ControlKey;
    var s' := Step(s, e);
    forall d: Direction ensures Linked(s', d) && Ordered(s', d) && Authentic(s', d) {
      assert Linked(s, d) && Ordered(s, d) && Authentic(s, d);
    }
  }

  /** A delivery touches the endpoint it reaches, and there the channel and the log of what it accepted. */
  lemma DeliveryMoves(s: Session, e: Event)
    requires e.Delivery?
    ensures var (ch, r) := OpenStep(s.Get(e.at).channel, e.frame);
            && Step(s, e).prk == s.prk && Step(s, e).th2 == s.th2
            && Step(s, e).Get(e.at.Opposite()) == s.Get(e.at.Opposite())
            && Step(s, e).Get(e.at) == Endpoint(ch, s.Get(e.at).sealed,
                 if r.Ok? then s.Get(e.at).accepted + [Entry(e.frame.head, r.value)] else s.Get(e.at).accepted)
  {
    hide OpenStep;
  }

  lemma DeliveredEnd(s: Session, e: Event)
    requires Linked(s, e.at) && Ordered(s, e.at) && Authentic(s, e.at) && e.Delivery? && Possible(s, e)
    ensures var s' := Step(s, e); Linked(s', e.at) && Ordered(s', e.at) && Authentic(s', e.at)
  {
    hide Unforged, OpenStep, Step, PrkAt, ControlKey, Increasing, AllBefore;
    DeliveryMoves(s, e);
    OpenMoves(s, e.at, e.frame);
    var here := s.Get(e.at);
    if OpenStep(here.channel, e.frame).1.Ok? {
      AcceptedWasSealed(s, e.at, e.frame);
      var ch := OpenStep(here.channel, e.frame).0;
      LogGrows(here.accepted, Entry(e.frame.head, OpenStep(here.channel, e.frame).1.value), here.channel.keys.epoch,
               here.channel.watermark);
      LogKeeps(here.sealed, here.channel.keys.epoch, here.channel.sendCounter, ch.keys.epoch, ch.sendCounter);
    }
  }

  lemma LogGrows(log: seq<Entry>, e: Entry, epoch: nat, counter: nat)
    requires Increasing(log) && AllBefore(log, epoch, counter) && !Before(e.head.epoch, e.head.counter, epoch, counter)
    ensures Increasing(log + [e]) && AllBefore(log + [e], e.head.epoch, e.head.counter + 1)
  {
  }

  lemma LogKeeps(log: seq<Entry>, epoch: nat, counter: nat, epoch': nat, counter': nat)
    requires AllBefore(log, epoch, counter) && epoch <= epoch' && (epoch == epoch' ==> counter <= counter')
    ensures AllBefore(log, epoch', counter')
  {
  }

  lemma DeliveryKeeps(s: Session, e: Event)
    requires Invariant(s) && e.Delivery? && Possible(s, e)
    ensures Invariant(Step(s, e))
  {
    hide Possible, OpenStep, Step, Increasing, AllBefore, PrkAt, DeriveEpoch;
    DeliveryMoves(s, e);
    var s' := Step(s, e);
    forall d: Direction ensures Linked(s', d) && Ordered(s', d) && Authentic(s', d) {
      assert Linked(s, d) && Ordered(s, d) && Authentic(s, d);
      if d == e.at {
        DeliveredEnd(s, e);
      }
    }
  }

  /** An accepted frame is past everything accepted before; a refused one changes nothing. */
  lemma OpenMoves(s: Session, at: Direction, f: Frame)
    requires Linked(s, at)
    ensures var ch := s.Get(at).channel;
            var (ch', r) := OpenStep(ch, f);
            && (r.Err? ==> ch' == ch)
            && (r.Ok? ==>
                  && ch'.sends == at && ch'.th2 == s.th2
                  && ch'.epochPrk == PrkAt(s.prk, ch'.keys.epoch)
                  && ch'.keys == DeriveEpoch(ch'.epochPrk, s.th2, f.head.epoch)
                  && !Before(f.head.epoch, f.head.counter, ch.keys.epoch, ch.watermark)
                  && ch'.watermark == f.head.counter + 1
                  && (ch.keys.epoch == ch'.keys.epoch ==> ch'.sendCounter == ch.sendCounter)
                  && ch.keys.epoch <= ch'.keys.epoch)
  {
    hide Aad, Nonce, Open, ControlKey, AdvancePrk;
  }

  lemma {:induction false} RekeyKeeps(s: Session, e: Event)
    requires Invariant(s) && e.Rekey? && !Wraps(s, e)
    ensures Invariant(Step(s, e))
  {
    hide ControlKey, AdvancePrk;
    var s' := Step(s, e);
    forall d: Direction ensures Linked(s', d) && Ordered(s', d) && Authentic(s', d) {
      assert Linked(s, d) && Ordered(s, d) && Authentic(s, d);
    }
  }

  lemma StepKeeps(s: Session, e: Event)
    requires Invariant(s) && Possible(s, e) && !Wraps(s, e)
    ensures Invariant(Step(s, e))
  {
    hide Invariant, Step;
    if e.Sealing? {
      SealingKeeps(s, e);
    } else if e.Delivery? {
      DeliveryKeeps(s, e);
    } else {
      RekeyKeeps(s, e);
    }
  }

  lemma {:induction false} RunKeeps(s: Session, run: seq<Event>)
    requires Invariant(s) && PossibleRun(s, run) && Unwrapped(s, run)
    ensures Invariant(Run(s, run))
    decreases |run|
  {
    hide Invariant, Possible, Wraps, Step;
    if run != [] {
      StepKeeps(s, run[0]);
      RunKeeps(Step(s, run[0]), run[1..]);
    }
  }

  lemma StartHolds(prk: Bytes, th2: Bytes)
    ensures Invariant(Start(prk, th2))
  {
  }

  // --- The promises, over every run ---

  /** No two sealed frames, of either side, share a nonce. */
  ghost predicate FreshNonces(s: Session) {
    forall d, d': Direction, i: nat, j: nat ::
      i < |s.Get(d).sealed| && j < |s.Get(d').sealed| && (d, i) != (d', j) ==>
        NonceOf(d, s.Get(d).sealed[i].head) != NonceOf(d', s.Get(d').sealed[j].head)
  }

  function NonceOf(d: Direction, h: Head): Bytes {
    Nonce(d, h.epoch, h.counter)
  }

  lemma InvariantNonces(s: Session)
    requires Invariant(s)
    ensures FreshNonces(s)
  {
    hide Nonce, Linked, Authentic;
    forall d, d': Direction, i: nat, j: nat
      | i < |s.Get(d).sealed| && j < |s.Get(d').sealed| && (d, i) != (d', j)
      ensures NonceOf(d, s.Get(d).sealed[i].head) != NonceOf(d', s.Get(d').sealed[j].head)
    {
      var h, h' := s.Get(d).sealed[i].head, s.Get(d').sealed[j].head;
      assert Ordered(s, d) && Ordered(s, d');
      if Nonce(d, h.epoch, h.counter) == Nonce(d', h'.epoch, h'.counter) {
        NonceInjective(d, h.epoch, h.counter, d', h'.epoch, h'.counter);
      }
    }
  }

  /** No two frames ever sealed in a session, by either side, share a nonce. */
  lemma NoncesNeverRepeat(prk: Bytes, th2: Bytes, run: seq<Event>)
    requires PossibleRun(Start(prk, th2), run) && Unwrapped(Start(prk, th2), run)
    ensures FreshNonces(Run(Start(prk, th2), run))
  {
    hide Run, Invariant, PossibleRun, Unwrapped, FreshNonces, Start;
    StartHolds(prk, th2);
    RunKeeps(Start(prk, th2), run);
    InvariantNonces(Run(Start(prk, th2), run));
  }

  /** Dropping entries, but never reordering or repeating them. */
  ghost predicate Subsequence(a: seq<Entry>, b: seq<Entry>)
    decreases |b|
  {
    a == [] || (b != [] && if a[|a| - 1] == b[|b| - 1]
                           then Subsequence(a[..|a| - 1], b[..|b| - 1])
                           else Subsequence(a, b[..|b| - 1]))
  }

  lemma {:induction false} IncreasingIsSubsequence(a: seq<Entry>, b: seq<Entry>)
    requires Increasing(a) && Increasing(b)
    requires forall i :: 0 <= i < |a| ==> a[i] in b
    ensures Subsequence(a, b)
    decreases |b|
  {
    if a != [] {
      var x, y := a[|a| - 1], b[|b| - 1];
      var front := b[..|b| - 1];
      if x == y {
        var rest := a[..|a| - 1];
        forall i | 0 <= i < |rest| ensures rest[i] in front {
          assert Before(a[i].head.epoch, a[i].head.counter, x.head.epoch, x.head.counter);
          assert a[i] in b;
        }
        IncreasingIsSubsequence(rest, front);
      } else {
        forall i | 0 <= i < |a| ensures a[i] in front {
          assert a[i] in b;
        }
        IncreasingIsSubsequence(a, front);
      }
    }
  }

  /**
   Whatever the network does, what an endpoint accepts is what its peer sealed, with nothing
   altered, repeated, reordered or reflected, and it strictly increases.
   */
  lemma AcceptedInOrder(prk: Bytes, th2: Bytes, run: seq<Event>, d: Direction)
    requires PossibleRun(Start(prk, th2), run) && Unwrapped(Start(prk, th2), run)
    ensures var s := Run(Start(prk, th2), run);
            && Subsequence(s.Get(d).accepted, s.Get(d.Opposite()).sealed)
            && Increasing(s.Get(d).accepted)
  {
    hide Run, Step;
    StartHolds(prk, th2);
    RunKeeps(Start(prk, th2), run);
    var s := Run(Start(prk, th2), run);
    assert Ordered(s, d) && Ordered(s, d.Opposite()) && Authentic(s, d);
    IncreasingIsSubsequence(s.Get(d).accepted, s.Get(d.Opposite()).sealed);
  }

  lemma StepKeepsEpoch(s: Session, e: Event, at: Direction)
    requires !Wraps(s, e)
    ensures s.Get(at).channel.keys.epoch <= Step(s, e).Get(at).channel.keys.epoch
  {
    hide Unforged, Open, Seal, AdvancePrk, Aad, Nonce, ControlKey;
  }

  lemma {:induction false} EpochNeverFalls(s: Session, run: seq<Event>, at: Direction)
    requires Unwrapped(s, run)
    ensures s.Get(at).channel.keys.epoch <= Run(s, run).Get(at).channel.keys.epoch
    decreases |run|
  {
    hide Wraps, Step;
    if run != [] {
      StepKeepsEpoch(s, run[0], at);
      EpochNeverFalls(Step(s, run[0]), run[1..], at);
    }
  }

  lemma RekeyMoves(s: Session, at: Direction)
    ensures var c := Step(s, Rekey(at)).Get(at).channel;
            && c.keys.epoch == After(s.Get(at).channel.keys.epoch)
            && c.sends == s.Get(at).channel.sends && c.sendCounter == 0
    ensures Step(s, Rekey(at)).Get(at).sealed == s.Get(at).sealed
    ensures Step(s, Rekey(at)).Get(at.Opposite()) == s.Get(at.Opposite())
  {
    hide AdvancePrk, ControlKey;
  }

  lemma StaleIsRefused(ch: Channel, f: Frame)
    requires f.head.epoch < ch.keys.epoch
    ensures OpenStep(ch, f) == (ch, Err(StaleEpoch))
  {
  }

  /** Once an endpoint has rekeyed, it refuses every frame of an older epoch as stale, for ever. */
  lemma StaleForEver(s: Session, at: Direction, run: seq<Event>, f: Frame)
    requires !Wraps(s, Rekey(at)) && Unwrapped(Step(s, Rekey(at)), run)
    requires f.head.epoch <= s.Get(at).channel.keys.epoch
    ensures var ch := Run(Step(s, Rekey(at)), run).Get(at).channel;
            OpenStep(ch, f) == (ch, Err(StaleEpoch))
  {
    hide Unwrapped, Run, Step, OpenStep;
    EpochNeverFalls(Step(s, Rekey(at)), run, at);
    RekeyMoves(s, at);
    StaleIsRefused(Run(Step(s, Rekey(at)), run).Get(at).channel, f);
  }

  /**
   Exactly when a frame the peer sealed still opens: it is of the current epoch and at or
   above the watermark, or it is of the next epoch. Delivered as sealed, it gives its plaintext.
   In the last epoch nothing opens, since the number after it has wrapped.
   */
  lemma PeerFrameOpens(s: Session, at: Direction, i: nat)
    requires Invariant(s) && i < |s.Get(at.Opposite()).sealed|
    ensures var e := s.Get(at.Opposite()).sealed[i];
            var f := Frame(e.head, Wire(s, at.Opposite(), e));
            var ch := s.Get(at).channel;
            && Possible(s, Delivery(at, f))
            && (OpenStep(ch, f).1.Ok? <==>
                && ch.keys.epoch + 1 < U64_LIMIT
                && ((e.head.epoch == ch.keys.epoch && ch.watermark <= e.head.counter) ||
                    e.head.epoch == ch.keys.epoch + 1))
            && (OpenStep(ch, f).1.Ok? ==> OpenStep(ch, f).1.value == e.plaintext)
  {
    hide Aad, Nonce, ControlKey, AdvancePrk, Open, Seal;
    var d := at.Opposite();
    assert Linked(s, at) && Ordered(s, d);
    var e := s.Get(d).sealed[i];
    OpenSealed(KeyAt(s, e.head.epoch, d), Nonce(d, e.head.epoch, e.head.counter), Aad(d, e.head), e.plaintext);
    assert SealedBy(s, d, Wire(s, d, e));
  }

  // --- Counters, from the logs alone ---

  /** The counter that follows the log in this epoch: one past the last entry's, or zero in a new epoch. */
  function Following(log: seq<Entry>, epoch: U64): nat {
    if log != [] && log[|log| - 1].head.epoch == epoch then log[|log| - 1].head.counter + 1 else 0
  }

  /** The send counter and the watermark are what the logs say, and sealed frames are numbered without a gap. */
  ghost predicate Tight(s: Session, d: Direction) {
    var e := s.Get(d);
    && e.channel.sendCounter == Following(e.sealed, e.channel.keys.epoch)
    && e.channel.watermark == Following(e.accepted, e.channel.keys.epoch)
    && forall i :: 0 <= i < |e.sealed| ==> e.sealed[i].head.counter == Following(e.sealed[..i], e.sealed[i].head.epoch)
  }

  lemma FollowingNew(log: seq<Entry>, epoch: U64, counter: nat, next: U64)
    requires AllBefore(log, epoch, counter) && epoch < next
    ensures Following(log, next) == 0
  {
  }

  lemma TightSeal(s: Session, e: Event, d: Direction)
    requires e.Sealing? && Tight(s, d)
    ensures Tight(Step(s, e), d)
  {
    hide Octets.Seal, Aad, Nonce, DeriveEpoch;
    var old', new' := s.Get(d).sealed, Step(s, e).Get(d).sealed;
    assert forall i :: 0 <= i < |old'| ==> new'[..i] == old'[..i];
    assert new'[..|old'|] == old';
  }

  lemma TightDelivery(s: Session, e: Event, d: Direction)
    requires e.Delivery? && Linked(s, d) && Ordered(s, d) && Tight(s, d)
    ensures Tight(Step(s, e), d)
  {
    hide OpenStep, Step, PrkAt, ControlKey, DeriveEpoch, Increasing, AllBefore;
    DeliveryMoves(s, e);
    if d == e.at {
      OpenMoves(s, d, e.frame);
      var old', ch := s.Get(d), OpenStep(s.Get(d).channel, e.frame).0;
      if old'.channel.keys.epoch < ch.keys.epoch {
        FollowingNew(old'.sealed, old'.channel.keys.epoch, old'.channel.sendCounter, ch.keys.epoch);
        AdoptionRestarts(old'.channel, e.frame);
      }
      EpochIsFrames(old'.channel, e.frame);
    }
  }

  lemma AdoptionRestarts(ch: Channel, f: Frame)
    requires ch.keys.epoch < OpenStep(ch, f).0.keys.epoch
    ensures OpenStep(ch, f).0.sendCounter == 0
  {
    hide Open, Aad, Nonce, AdvancePrk, ControlKey;
  }

  lemma EpochIsFrames(ch: Channel, f: Frame)
    ensures OpenStep(ch, f).1.Ok? ==> OpenStep(ch, f).0.keys.epoch == f.head.epoch
  {
    hide Open, Aad, Nonce, AdvancePrk, ControlKey;
  }

  lemma TightRekey(s: Session, e: Event, d: Direction)
    requires e.Rekey? && Ordered(s, d) && Tight(s, d) && !Wraps(s, e)
    ensures Tight(Step(s, e), d)
  {
    hide AdvancePrk, ControlKey, Increasing, AllBefore;
    if d == e.at {
      var old' := s.Get(d);
      var epoch := old'.channel.keys.epoch;
      FollowingNew(old'.sealed, epoch, old'.channel.sendCounter, epoch + 1);
      FollowingNew(old'.accepted, epoch, old'.channel.watermark, epoch + 1);
    }
  }

  lemma {:induction false} RunTight(s: Session, run: seq<Event>, d: Direction)
    requires Invariant(s) && Tight(s, d) && PossibleRun(s, run) && Unwrapped(s, run)
    ensures Tight(Run(s, run), d)
    decreases |run|
  {
    hide Possible, Wraps, Step, Tight, Linked, Ordered, Authentic;
    if run != [] {
      assert Linked(s, d) && Ordered(s, d);
      match run[0] {
        case Sealing(_, _, _, _, _) => TightSeal(s, run[0], d);
        case Delivery(_, _) => TightDelivery(s, run[0], d);
        case Rekey(_) => TightRekey(s, run[0], d);
      }
      StepKeeps(s, run[0]);
      RunTight(Step(s, run[0]), run[1..], d);
    }
  }

  /** Over every run: frames are numbered from zero in each epoch without a gap, and the logs give the counters. */
  lemma CountersAreTight(prk: Bytes, th2: Bytes, run: seq<Event>, d: Direction)
    requires PossibleRun(Start(prk, th2), run) && Unwrapped(Start(prk, th2), run)
    ensures Tight(Run(Start(prk, th2), run), d)
  {
    hide Run, PossibleRun, Unwrapped;
    StartHolds(prk, th2);
    RunTight(Start(prk, th2), run, d);
  }

  /**
   So over every run a frame of the peer opens exactly when it is of this epoch and past the last
   one accepted in it, or of the next epoch.
   */
  lemma OpensIfNew(prk: Bytes, th2: Bytes, run: seq<Event>, at: Direction, i: nat)
    requires PossibleRun(Start(prk, th2), run) && Unwrapped(Start(prk, th2), run)
    requires i < |Run(Start(prk, th2), run).Get(at.Opposite()).sealed|
    ensures var s := Run(Start(prk, th2), run);
            var e, here := s.Get(at.Opposite()).sealed[i], s.Get(at);
            var epoch := here.channel.keys.epoch;
            OpenStep(here.channel, Frame(e.head, Wire(s, at.Opposite(), e))).1.Ok? <==>
            && epoch + 1 < U64_LIMIT
            && ((e.head.epoch == epoch && Following(here.accepted, epoch) <= e.head.counter) ||
                e.head.epoch == epoch + 1)
  {
    hide Run, PossibleRun, Unwrapped, OpenStep, Wire;
    StartHolds(prk, th2);
    RunKeeps(Start(prk, th2), run);
    CountersAreTight(prk, th2, run, at);
    PeerFrameOpens(Run(Start(prk, th2), run), at, i);
  }

  /**
   What is sealed is what goes out and what the log remembers: the frame named and numbered as
   asked, in the wire form of its log entry. It is refused only once the epoch's numbers are used up.
   */
  lemma SealedIsSent(s: Session, e: Event)
    requires e.Sealing? && Linked(s, e.at)
    ensures var ch := s.Get(e.at).channel;
            var r := SealStep(ch, e.frameType, e.flags, e.requestId, e.plaintext).1;
            if ch.sendCounter >= 0x1_0000_0000
            then r == Err(CounterExhausted) && Step(s, e) == s
            else
              var entry := Entry(Head(ch.keys.epoch, ch.sendCounter, e.frameType, e.flags, e.requestId), e.plaintext);
              && r == Ok(Frame(entry.head, Wire(s, e.at, entry)))
              && Step(s, e).Get(e.at).sealed == s.Get(e.at).sealed + [entry]
  {
    hide Octets.Seal, Aad, Nonce, ControlKey;
  }

  /** Delivered at once to a peer in the same epoch or the one before, it opens and gives back what was sealed. */
  lemma SealedArrives(s: Session, e: Event)
    requires Invariant(s) && Tight(s, e.at.Opposite()) && e.Sealing?
    requires SealStep(s.Get(e.at).channel, e.frameType, e.flags, e.requestId, e.plaintext).1.Ok?
    requires var mine, theirs := s.Get(e.at).channel.keys.epoch, s.Get(e.at.Opposite()).channel.keys.epoch;
             theirs + 1 < U64_LIMIT && (mine == theirs || mine == theirs + 1)
    ensures var f := SealStep(s.Get(e.at).channel, e.frameType, e.flags, e.requestId, e.plaintext).1.value;
            && f.head.frameType == e.frameType && f.head.flags == e.flags && f.head.requestId == e.requestId
            && Possible(Step(s, e), Delivery(e.at.Opposite(), f))
            && OpenStep(Step(s, e).Get(e.at.Opposite()).channel, f).1 == Ok(e.plaintext)
  {
    hide SealStep, OpenStep, Step, Wire, Possible, Increasing;
    var v, at := Step(s, e), e.at.Opposite();
    assert Linked(s, e.at);
    SealedIsSent(s, e);
    SealingKeeps(s, e);
    var n := |s.Get(e.at).sealed|;
    PeerFrameOpens(v, at, n);
    SealingTouches(s, e);
    AcceptedIsBehind(s, e.at);
    WireSame(s, v, e.at, v.Get(e.at).sealed[n]);
  }

  lemma SealingTouches(s: Session, e: Event)
    requires e.Sealing?
    ensures Step(s, e).prk == s.prk && Step(s, e).th2 == s.th2
    ensures Step(s, e).Get(e.at.Opposite()) == s.Get(e.at.Opposite())
  {
    hide Octets.Seal, Aad, Nonce;
  }

  lemma WireSame(s: Session, v: Session, d: Direction, e: Entry)
    requires s.prk == v.prk && s.th2 == v.th2
    ensures Wire(s, d, e) == Wire(v, d, e)
  {
    hide Octets.Seal, Aad, Nonce, ControlKey;
  }

  /** The peer's watermark is never past this side's send counter in their common epoch. */
  lemma AcceptedIsBehind(s: Session, d: Direction)
    requires Invariant(s) && Tight(s, d.Opposite())
    ensures var here, there := s.Get(d).channel, s.Get(d.Opposite()).channel;
            here.keys.epoch == there.keys.epoch ==> there.watermark <= here.sendCounter
  {
    hide Linked, Increasing;
    assert Ordered(s, d) && Authentic(s, d.Opposite()) && d.Opposite().Opposite() == d;
    var there := s.Get(d.Opposite());
    if there.channel.watermark > 0 {
      var last := there.accepted[|there.accepted| - 1];
      assert last in s.Get(d).sealed;
    }
  }

  // --- Past the last epoch ---

  function Repeated(e: Event, n: nat): (run: seq<Event>)
    ensures |run| == n
  {
    seq(n, _ => e)
  }

  lemma RepeatedAgain(e: Event, n: nat)
    requires n > 0
    ensures Repeated(e, n)[0] == e && Repeated(e, n)[1..] == Repeated(e, n - 1)
  {
  }

  /** Rekeying `n` times: the epoch moves on by `n`, and nothing is sealed. */
  lemma {:induction false} RekeysReach(s: Session, at: Direction, n: nat)
    requires s.Get(at).channel.keys.epoch + n < U64_LIMIT
    ensures var run := Repeated(Rekey(at), n);
            var v := Run(s, run);
            && PossibleRun(s, run) && Unwrapped(s, run)
            && v.Get(at).channel.keys.epoch == s.Get(at).channel.keys.epoch + n
            && v.Get(at).channel.sends == s.Get(at).channel.sends
            && (v.Get(at).channel.sendCounter == if n == 0 then s.Get(at).channel.sendCounter else 0)
            && v.Get(at).sealed == s.Get(at).sealed
    decreases n
  {
    hide Step;
    if n > 0 {
      RepeatedAgain(Rekey(at), n);
      RekeyMoves(s, at);
      RekeysReach(Step(s, Rekey(at)), at, n - 1);
    }
  }

  lemma SealMoves(s: Session, e: Event)
    requires e.Sealing? && s.Get(e.at).channel.sendCounter < MAX_FRAMES_PER_EPOCH
    ensures var c, here := s.Get(e.at).channel, Step(s, e).Get(e.at);
            && here.channel == c.(sendCounter := c.sendCounter + 1)
            && here.sealed == s.Get(e.at).sealed +
                 [Entry(Head(c.keys.epoch, c.sendCounter, e.frameType, e.flags, e.requestId), e.plaintext)]
  {
    hide Octets.Seal, Aad, Nonce;
  }

  /** Sealing up to a counter: the last frame sealed has that counter, in the same epoch. */
  lemma {:induction false} SealsReach(s: Session, e: Event, n: nat)
    requires e.Sealing? && n > 0 && s.Get(e.at).channel.sendCounter + n <= MAX_FRAMES_PER_EPOCH
    ensures var c, sealed := s.Get(e.at).channel, s.Get(e.at).sealed;
            var run := Repeated(e, n);
            var v := Run(s, run).Get(e.at).sealed;
            && PossibleRun(s, run) && Unwrapped(s, run)
            && |v| == |sealed| + n && v[..|sealed|] == sealed
            && v[|v| - 1].head.epoch == c.keys.epoch && v[|v| - 1].head.counter == c.sendCounter + n - 1
    decreases n
  {
    hide Step;
    RepeatedAgain(e, n);
    SealMoves(s, e);
    var u := Step(s, e);
    if n == 1 {
      assert Repeated(e, 0) == [];
    } else {
      SealsReach(u, e, n - 1);
      var v := Run(u, Repeated(e, n - 1)).Get(e.at).sealed;
      assert v[..|s.Get(e.at).sealed|] == v[..|u.Get(e.at).sealed|][..|s.Get(e.at).sealed|];
    }
  }

  lemma {:induction false} RunOn(s: Session, a: seq<Event>, b: seq<Event>)
    requires PossibleRun(s, a) && Unwrapped(s, a) && PossibleRun(Run(s, a), b) && Unwrapped(Run(s, a), b)
    ensures PossibleRun(s, a + b) && Unwrapped(s, a + b) && Run(s, a + b) == Run(Run(s, a), b)
    decreases |a|
  {
    hide Step, Possible, Wraps;
    if a == [] {
      assert a + b == b;
    } else {
      RunOn(Step(s, a[0]), a[1..], b);
      assert (a + b)[1..] == a[1..] + b;
    }
  }

  /** After a wrap any frame's epoch and counter can come round again. */
  lemma WrapRepeats(s: Session, at: Direction, i: nat) returns (run: seq<Event>)
    requires Invariant(s) && Wraps(s, Rekey(at)) && i < |s.Get(at).sealed|
    ensures var u := Step(s, Rekey(at));
            PossibleRun(u, run) && Unwrapped(u, run) && !FreshNonces(Run(u, run))
  {
    hide Step, Run, PossibleRun, Unwrapped, Repeated, Linked, Authentic, Increasing, AllBefore, Nonce;
    assert Ordered(s, at);
    var h := s.Get(at).sealed[i].head;
    var u := Step(s, Rekey(at));
    RekeyMoves(s, at);
    var a := Repeated(Rekey(at), h.epoch);
    RekeysReach(u, at, h.epoch);
    var e := Sealing(at, 0, 0, 0, []);
    var b := Repeated(e, h.counter + 1);
    SealsReach(Run(u, a), e, h.counter + 1);
    RunOn(u, a, b);
    run := a + b;
    var v := Run(u, run).Get(at).sealed;
    var j := |v| - 1;
    assert v[i] == v[..|s.Get(at).sealed|][i] == s.Get(at).sealed[i];
    assert NonceOf(at, v[i].head) == NonceOf(at, v[j].head);
  }

  /**
   Exactly when a rekey is safe for an endpoint that has sealed anything: every way to go on,
   short of another wrap, keeps nonces fresh just if the epoch was not the last one.
   */
  lemma RekeyIsSafeIff(s: Session, at: Direction)
    requires Invariant(s) && s.Get(at).sealed != []
    ensures (forall run :: PossibleRun(Step(s, Rekey(at)), run) && Unwrapped(Step(s, Rekey(at)), run) ==>
               FreshNonces(Run(Step(s, Rekey(at)), run))) <==>
            s.Get(at).channel.keys.epoch + 1 < U64_LIMIT
  {
    hide Step, Run, PossibleRun, Unwrapped, FreshNonces, Invariant;
    var u := Step(s, Rekey(at));
    if Wraps(s, Rekey(at)) {
      var run := WrapRepeats(s, at, 0);
    } else {
      RekeyKeeps(s, Rekey(at));
      forall run | PossibleRun(u, run) && Unwrapped(u, run) ensures FreshNonces(Run(u, run)) {
        RunKeeps(u, run);
        InvariantNonces(Run(u, run));
      }
    }
  }

  /** And the last epoch can be reached with a frame sealed. */
  lemma LastEpochIsReached(prk: Bytes, th2: Bytes) returns (run: seq<Event>)
    ensures PossibleRun(Start(prk, th2), run) && Unwrapped(Start(prk, th2), run)
    ensures var s := Run(Start(prk, th2), run); |s.client.sealed| == 1 && Wraps(s, Rekey(ClientToServer))
  {
    hide Step, Run, PossibleRun, Unwrapped, Repeated;
    var s := Start(prk, th2);
    var e := Sealing(ClientToServer, 0, 0, 0, []);
    var a, b := Repeated(e, 1), Repeated(Rekey(ClientToServer), U64_LIMIT - 1);
    SealsReach(s, e, 1);
    OneSealStays(s, e);
    RekeysReach(Run(s, a), ClientToServer, U64_LIMIT - 1);
    RunOn(s, a, b);
    run := a + b;
  }

  lemma OneSealStays(s: Session, e: Event)
    requires e.Sealing? && s.Get(e.at).channel.sendCounter < MAX_FRAMES_PER_EPOCH
    ensures Run(s, Repeated(e, 1)).Get(e.at).channel.keys == s.Get(e.at).channel.keys
  {
    hide Step;
    RepeatedAgain(e, 1);
    SealMoves(s, e);
    assert Repeated(e, 0) == [];
  }
}
