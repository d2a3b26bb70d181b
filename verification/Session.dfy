/**
 From handshake to control channel (`handshake.rs`, `control.rs`): two sides that completed one
 handshake open the two ends of one channel.
 */
module Session {
  import opened Octets
  import opened Messages
  import H = Handshake
  import A = Agreement
  import C = Control

  /** The handshake's control keys are the channel's keys of epoch zero. */
  lemma EpochZeroKeys(prk: Bytes, th2: Bytes)
    ensures var keys, zero := H.Schedule(prk, th2), C.DeriveEpoch(prk, th2, 0);
            keys.c2s == zero.c2s && keys.s2c == zero.s2c
  {
    hide Ascii;
  }

  lemma InfosDiffer(prk: Bytes, a: string, b: string, th2: Bytes, n: nat)
    requires n > 0 && (|a| != |b| || exists k :: 0 <= k < |a| && Ascii(a)[k] != Ascii(b)[k])
    ensures Output(Expand(prk, Ascii(a) + th2), n) != Output(Expand(prk, Ascii(b) + th2), n)
  {
    var x, y := Ascii(a) + th2, Ascii(b) + th2;
    if |a| == |b| {
      var k :| 0 <= k < |a| && Ascii(a)[k] != Ascii(b)[k];
      assert x[k] != y[k];
    } else {
      assert |x| != |y|;
    }
    assert Output(Expand(prk, x), n)[0] != Output(Expand(prk, y), n)[0];
  }

  /** No two secrets of one session coincide, the extraction output included: none does the work of another. */
  lemma KeysAreSeparate(salt: Bytes, ikm: Bytes, th2: Bytes)
    ensures var prk := Output(Extract(salt, ikm), HASH_LEN);
            var k := H.Schedule(prk, th2);
            Distinct([prk, k.c2s, k.s2c, k.wrap, k.clientFinished, k.serverFinished, k.resumption])
  {
    hide Ascii;
    var prk := Output(Extract(salt, ikm), HASH_LEN);
    var k := H.Schedule(prk, th2);
    assert prk[0].of == Extract(salt, ikm);
    ControlKeysDiffer(prk, th2);
    FinishedKeysDiffer(prk, th2);
  }

  ghost predicate Distinct(keys: seq<Bytes>) {
    forall i, j :: 0 <= i < j < |keys| ==> keys[i] != keys[j]
  }

  lemma ControlKeysDiffer(prk: Bytes, th2: Bytes)
    ensures var k := H.Schedule(prk, th2); k.c2s != k.s2c && k.c2s != k.wrap && k.s2c != k.wrap
  {
    AsciiDiffer("RTP2 control c2s v1", "RTP2 control s2c v1", 13);
    InfosDiffer(prk, "RTP2 control c2s v1", "RTP2 control s2c v1", th2, KEY_LEN);
    InfosDiffer(prk, "RTP2 control c2s v1", "RTP2 transfer wrap v1", th2, KEY_LEN);
    InfosDiffer(prk, "RTP2 control s2c v1", "RTP2 transfer wrap v1", th2, KEY_LEN);
  }

  lemma FinishedKeysDiffer(prk: Bytes, th2: Bytes)
    ensures var k := H.Schedule(prk, th2);
            && k.clientFinished != k.serverFinished && k.clientFinished != k.resumption
            && k.serverFinished != k.resumption
  {
    AsciiDiffer("RTP2 client finished v1", "RTP2 server finished v1", 5);
    InfosDiffer(prk, "RTP2 client finished v1", "RTP2 server finished v1", th2, HASH_LEN);
    InfosDiffer(prk, "RTP2 client finished v1", "RTP2 resumption v1", th2, HASH_LEN);
    InfosDiffer(prk, "RTP2 server finished v1", "RTP2 resumption v1", th2, HASH_LEN);
  }

  /** The end each side opens: the initiator sends towards the responder. */
  function EndOf(keys: H.SessionKeys): C.Channel {
    C.NewChannel(keys.prk, keys.th2, if keys.role.InitiatorRole? then C.ClientToServer else C.ServerToClient)
  }

  lemma RolesOf(i: A.InitiatorHistory, r: A.ResponderHistory)
    requires i.Completed() && r.Completed()
    ensures i.keys.role == H.InitiatorRole && r.keys.role == H.ResponderRole
    ensures i.keys.c2s == H.Schedule(i.keys.prk, i.keys.th2).c2s && i.keys.s2c == H.Schedule(i.keys.prk, i.keys.th2).s2c
  {
    hide PutServerHello, PutClientHello, PutFinishBare, H.Th2, H.ServerMac, H.ClientMac, EncodeServerFinish,
         DecodeServerFinish,
         H.OnServerHello, H.OnClientHello, H.OnClientFinish, H.Hello, Ascii;
    var sh, ctToB, prk := A.InitiatorEnds(i);
    var ch, sh', cf, prk' := A.ResponderEnds(r);
  }

  /**
   An initiator and the responder whose ServerFinish it accepted open the two ends of one channel,
   under the keys they agreed.
   */
  lemma EndsOfOneChannel(i: A.InitiatorHistory, r: A.ResponderHistory)
    requires i.Completed() && r.Completed() && i.serverFinish == r.serverFinish
    ensures var s := C.Start(i.keys.prk, i.keys.th2);
            && EndOf(i.keys) == s.client.channel && EndOf(r.keys) == s.server.channel
            && s.client.channel.keys == s.server.channel.keys == C.EpochKeys(0, i.keys.c2s, i.keys.s2c)
  {
    hide A.InitiatorHistory.Completed, A.ResponderHistory.Completed, H.Schedule, C.ControlKey;
    A.SessionsAgree(i, r);
    RolesOf(i, r);
    EpochZeroKeys(i.keys.prk, i.keys.th2);
  }
}
