/** The layers stacked: what the handshake hands over starts the record protocol, and frames
    sent through the resulting sessions on a byte stream come back as they were sent. */
module EndToEnd {
  import opened Bytes
  import opened Frames
  import opened HandshakeTypes
  import opened Sessions
  import Cipher
  import Handshakes
  import HandshakeProtocol
  import HandshakeAgreement
  import RecordProtocol
  import RecordGuarantees
  import Streams
  import StreamAuthenticity
  import Duplex
  import Clients
  import HandshakeMessages

  /** The record protocol that two handshake outputs start. */
  ghost function RecordConfig(c: Cipher.Suite, a: HandshakeOutput, horizon: nat): RecordProtocol.Config {
    RecordProtocol.Config(c, a.sessionId, a.txKey, a.rxKey, horizon)
  }

  function FreshEnd(o: HandshakeOutput, now: int): RecordProtocol.End {
    RecordProtocol.End(FromHandshakeOutput(o, now), [[]], [[RecordProtocol.Segment(OrderedTcp, [])]])
  }

  /** Mirrored outputs are an initial state of the record protocol, and each session is the
      mirror of the other in both directions. */
  lemma SessionsStartMirrored(c: Cipher.Suite, a: HandshakeOutput, b: HandshakeOutput,
                              now: int, peerNow: int, horizon: nat)
    requires HandshakeAgreement.MirroredOutputs(a, b)
    ensures RecordProtocol.Init(RecordConfig(c, a, horizon),
                                RecordProtocol.World(FreshEnd(a, now), FreshEnd(b, peerNow)))
    ensures Streams.Mirrored(FromHandshakeOutput(a, now), FromHandshakeOutput(b, peerNow))
    ensures Streams.Mirrored(FromHandshakeOutput(b, peerNow), FromHandshakeOutput(a, now))
  {}

  /** One direction of the stream between two sessions: who sends, what, and how it is read. */
  datatype Traffic = Traffic(
    fromInitiator: bool,
    items: seq<Streams.Item>,
    senderStart: int,
    receiverStart: int,
    clock: nat -> int,
    touches: bool)
  {
    function Sender(a: HandshakeOutput, b: HandshakeOutput): Session {
      FromHandshakeOutput(if fromInitiator then a else b, senderStart)
    }

    function Receiver(a: HandshakeOutput, b: HandshakeOutput): Session {
      FromHandshakeOutput(if fromInitiator then b else a, receiverStart)
    }
  }

  /** On an undisturbed stream, what either side sends, mixed with heartbeats, is read by the
      other exactly as sent, if and only if no frame sent has the heartbeat's message type or a
      ciphertext that overflows its length field. */
  ghost predicate StreamsDeliver(c: Cipher.Suite, a: HandshakeOutput, b: HandshakeOutput) {
    forall t: Traffic ::
      var sent := Streams.Sent(c, t.Sender(a, b), t.items);
      var stream := EncodeFrames(Streams.Wire(c, t.Sender(a, b), t.items));
      Streams.ReadAll(c, t.Receiver(a, b), stream, t.clock, t.touches).0 == sent
      <==> Streams.NoneIsHeartbeat(sent) && Streams.CiphertextsFit(sent)
  }

  /** On any stream, tampered with as it may be but for forgery, what is read is a prefix of
      what was sent. */
  ghost predicate StreamsAreAuthentic(c: Cipher.Suite, a: HandshakeOutput, b: HandshakeOutput) {
    forall t: Traffic, stream: Bytes ::
      var sender, receiver := t.Sender(a, b), t.Receiver(a, b);
      var sent := Streams.Sent(c, sender, t.items);
      StreamAuthenticity.Unforged(c, sender, sent, StreamAuthenticity.SealedFrames(c, sender, t.items),
                                  receiver, stream, t.clock, t.touches) ==>
        Streams.ReadAll(c, receiver, stream, t.clock, t.touches).0 <= sent
  }

  /** In every run of the record protocol from the two sessions, ordered epochs deliver prefixes,
      nothing is accepted twice and no key and nonce are used twice. */
  ghost predicate RecordsAreProtected(c: Cipher.Suite, a: HandshakeOutput, b: HandshakeOutput) {
    forall horizon: nat, now: int, peerNow: int ::
      var g, start := RecordConfig(c, a, horizon), RecordProtocol.World(FreshEnd(a, now), FreshEnd(b, peerNow));
      && RecordProtocol.Init(g, start)
      && (g.Ideal() ==>
            forall ws, actions, w | RecordProtocol.IsRun(g, ws, actions) && ws[0] == start && w in ws ::
              RecordGuarantees.Protected(g, w))
  }

  /** The connection of two sessions before anything is exchanged. */
  function Connected(a: HandshakeOutput, b: HandshakeOutput, now: int, peerNow: int): Duplex.Connection {
    Duplex.Connection(Duplex.Side(FromHandshakeOutput(a, now), [], [], []),
                      Duplex.Side(FromHandshakeOutput(b, peerNow), [], [], []))
  }

  /** However the two sides send, write heartbeats and read on their sessions, each reads what
      the other sent, as long as that can be delivered. */
  ghost predicate ConversationsDeliver(c: Cipher.Suite, a: HandshakeOutput, b: HandshakeOutput) {
    forall now: int, peerNow: int ::
      var start := Connected(a, b, now, peerNow);
      && Duplex.Fresh(start)
      && forall ws: seq<Duplex.Connection>, actions, n: nat
           | Duplex.IsRun(c, ws, actions) && ws[0] == start && n < |ws|
             && Duplex.Deliverable(ws[n].a.sent) && Duplex.Deliverable(ws[n].b.sent) ::
           Duplex.Delivered(c, ws[n])
  }

  ghost predicate Secured(c: Cipher.Suite, a: HandshakeOutput, b: HandshakeOutput) {
    && StreamsDeliver(c, a, b) && ConversationsDeliver(c, a, b)
    && StreamsAreAuthentic(c, a, b) && RecordsAreProtected(c, a, b)
  }

  lemma MirroredConverse(c: Cipher.Suite, a: HandshakeOutput, b: HandshakeOutput)
    requires c.Sound() && HandshakeAgreement.MirroredOutputs(a, b)
    ensures ConversationsDeliver(c, a, b)
  {
    hide FromHandshakeOutput, Cipher.Suite.Sound, HandshakeAgreement.MirroredOutputs, Streams.Mirrored,
         Duplex.Delivered, Duplex.Deliverable, Duplex.IsRun;
    forall now: int, peerNow: int
      ensures Duplex.Fresh(Connected(a, b, now, peerNow))
    {
      SessionsStartMirrored(c, a, b, now, peerNow, 0);
    }
    forall ws: seq<Duplex.Connection>, actions, n: nat
      | Duplex.IsRun(c, ws, actions) && n < |ws|
        && Duplex.Deliverable(ws[n].a.sent) && Duplex.Deliverable(ws[n].b.sent)
      ensures Duplex.Delivered(c, ws[n])
    {
      Duplex.BothDirectionsDeliver(c, ws, actions, n);
    }
  }

  /** Mirrored outputs secure what is built on them. */
  lemma MirroredSecures(c: Cipher.Suite, a: HandshakeOutput, b: HandshakeOutput)
    requires c.Sound() && HandshakeAgreement.MirroredOutputs(a, b)
    ensures Secured(c, a, b)
  {
    hide FromHandshakeOutput, Cipher.Suite.Sound, HandshakeAgreement.MirroredOutputs, Streams.Mirrored,
         RecordGuarantees.Protected, RecordProtocol.IsRun, RecordProtocol.Config.Ideal, StreamAuthenticity.Unforged,
         RecordProtocol.Init, Streams.ReadAll, Streams.Sent, Streams.Wire, EncodeFrames, FreshEnd, RecordConfig,
         ConversationsDeliver;
    forall t: Traffic
      ensures Streams.Mirrored(t.Sender(a, b), t.Receiver(a, b))
    {
      SessionsStartMirrored(c, a, b, t.senderStart, t.receiverStart, 0);
      SessionsStartMirrored(c, a, b, t.receiverStart, t.senderStart, 0);
    }
    assert StreamsDeliver(c, a, b) by {
      forall t: Traffic {
        Streams.DeliversExactlyWhen(c, t.Sender(a, b), t.Receiver(a, b), t.items, t.clock, t.touches);
      }
    }
    assert StreamsAreAuthentic(c, a, b) by {
      forall t: Traffic, stream: Bytes
        | StreamAuthenticity.Unforged(c, t.Sender(a, b), Streams.Sent(c, t.Sender(a, b), t.items),
            StreamAuthenticity.SealedFrames(c, t.Sender(a, b), t.items), t.Receiver(a, b), stream, t.clock, t.touches)
      {
        StreamAuthenticity.ReadsPrefix(c, t.Sender(a, b), t.items, t.Receiver(a, b), stream, t.clock, t.touches);
      }
    }
    assert ConversationsDeliver(c, a, b) by {
      MirroredConverse(c, a, b);
    }
    forall horizon: nat, now: int, peerNow: int
      ensures RecordProtocol.Init(RecordConfig(c, a, horizon),
                                  RecordProtocol.World(FreshEnd(a, now), FreshEnd(b, peerNow)))
    {
      SessionsStartMirrored(c, a, b, now, peerNow, horizon);
    }
    forall g: RecordProtocol.Config, ws, actions, w | g.Ideal() && RecordProtocol.IsRun(g, ws, actions) && w in ws
      ensures RecordGuarantees.Protected(g, w)
    {
      RecordGuarantees.RunsAreProtected(g, ws, actions, w);
    }
  }

  /** The whole stack: after a handshake that both sides finished on matching hellos, streams
      deliver and records are protected in both directions. */
  lemma FullStack(p: Handshakes.Primitives, c: Cipher.Suite,
                  ws: seq<HandshakeProtocol.World>, events: seq<HandshakeProtocol.Event>,
                  w: HandshakeProtocol.World, i: nat, r: nat, finish: Frame)
    requires p.DhCommutes() && c.Sound()
    requires HandshakeProtocol.IsRun(p, ws, events) && w in ws
    requires i < |w.initiators| && r < |w.responders|
    requires Handshakes.Finalize(p, w.initiators[i]).Ok?
    requires Handshakes.HandleClientFinish(p, w.responders[r], finish).Ok?
    requires w.initiators[i].clientHello == w.responders[r].clientHello
    requires HandshakeAgreement.SameUnsignedHello(w.initiators[i], w.responders[r])
    ensures Secured(c, Handshakes.Finalize(p, w.initiators[i]).value,
                    Handshakes.HandleClientFinish(p, w.responders[r], finish).value)
  {
    hide HandshakeProtocol.IsRun, Handshakes.Finalize, Handshakes.HandleClientFinish, Secured,
         Cipher.Suite.Sound, Handshakes.Primitives.DhCommutes, HandshakeProtocol.InitiatorInv,
         HandshakeProtocol.ResponderInv, HandshakeAgreement.MirroredOutputs;
    HandshakeProtocol.RunKeepsInv(p, ws, events);
    HandshakeAgreement.OutputsMirror(p, w, w.initiators[i], w.responders[r], finish);
    MirroredSecures(c, Handshakes.Finalize(p, w.initiators[i]).value,
                    Handshakes.HandleClientFinish(p, w.responders[r], finish).value);
  }

  /** The whole stack over a handshake on an arbitrary network: a responder that accepts a
      finish from an honest pinned key shares a session with an initiator that signed it, and
      that session is secured. The matching of hellos is a consequence here. */
  lemma AuthenticatedStack(p: Handshakes.Primitives, c: Cipher.Suite,
                           ws: seq<HandshakeProtocol.World>, events: seq<HandshakeProtocol.Event>,
                           w: HandshakeProtocol.World, r: nat, finish: Frame)
    returns (consent: HandshakeProtocol.Consent)
    requires p.DhCommutes() && c.Sound()
    requires HandshakeProtocol.IsRun(p, ws, events) && w in ws && HandshakeProtocol.CollisionFree(p, w)
    requires r < |w.responders| && Handshakes.HandleClientFinish(p, w.responders[r], finish).Ok?
    requires HandshakeProtocol.ClientFinishUnforged(p, w, w.responders[r], finish)
    requires HandshakeProtocol.Honest(w, w.responders[r].clientHello.value.identityBundle.ed25519Public)
    ensures && consent in w.consents && consent.initiator < |w.initiators|
            && var s := HandshakeProtocol.Consenting(w, consent);
            && s.identity.ed25519Public == w.responders[r].clientHello.value.identityBundle.ed25519Public
            && Handshakes.Finalize(p, s).Ok?
            && Secured(c, Handshakes.Finalize(p, s).value,
                       Handshakes.HandleClientFinish(p, w.responders[r], finish).value)
  {
    hide HandshakeProtocol.IsRun, Handshakes.Finalize, Handshakes.HandleClientFinish, Secured,
         Cipher.Suite.Sound, Handshakes.Primitives.DhCommutes, HandshakeAgreement.MirroredOutputs,
         HandshakeProtocol.ClientFinishUnforged, HandshakeProtocol.CollisionFree, HandshakeProtocol.Honest;
    consent := HandshakeAgreement.ResponderOutputIsMirrored(p, ws, events, w, r, finish);
    MirroredSecures(c, Handshakes.Finalize(p, HandshakeProtocol.Consenting(w, consent)).value,
                    Handshakes.HandleClientFinish(p, w.responders[r], finish).value);
  }

  /** Handshake frames fit the length field, and only the answer is a server hello. */
  lemma HandshakeFramesFit(p: Handshakes.Primitives, s: Handshakes.Party, f: Frame, now: u64)
    ensures var hello := Handshakes.BuildClientHello(s).0;
            hello.Ok? ==> |hello.value.payload| < TWO_32
    ensures var answer := Handshakes.HandleClientHello(p, s, f, now).0;
            answer.Ok? ==> |answer.value.payload| < TWO_32 && answer.value.msgType == HandshakeMessages.MSG_SERVER_HELLO
    ensures var finish := Handshakes.BuildClientFinish(p, s);
            finish.Ok? ==> |finish.value.payload| < TWO_32
  {
    hide Handshakes.AnswerClientHello, Handshakes.ClientMessage, HandshakeMessages.ClientHelloBody,
         HandshakeMessages.ServerHelloBody, HandshakeMessages.ClientFinishBody, HandshakeMessages.Wrap;
  }

  /** A client and a responder over byte streams, undisturbed: the client takes exactly the
      answer from its stream, what it writes reads as its hello and its finish, and both sides
      complete or neither does, with mirrored outputs. */
  lemma StreamHandshake(p: Handshakes.Primitives, i: Handshakes.Party, r: Handshakes.Party,
                        now: u64, later: u64, more: Bytes)
    requires p.DhCommutes() && p.SignaturesVerify()
    requires HandshakeAgreement.CanSign(p, i.identity) && HandshakeAgreement.CanSign(p, r.identity)
    requires HandshakeProtocol.WellFormed(p, i) && HandshakeProtocol.WellFormed(p, r)
    requires |i.bundle.keyId| <= 65345 && |r.bundle.keyId| <= 65281
    requires Handshakes.Validate(p, i.bundle, r.pinned, now).Ok?
    requires Handshakes.Validate(p, r.bundle, i.pinned, later).Ok?
    requires Handshakes.Common(i.policy.capabilityBits, r.policy.capabilityBits) != 0
    requires i.policy.maxPayload != 0 && r.policy.maxPayload != 0
    ensures var hello := Handshakes.BuildClientHello(i).0;
            && hello.Ok?
            && var (answer, r1) := Handshakes.HandleClientHello(p, r, hello.value, now);
            && answer.Ok?
            && var (output, written, rest) := Clients.Connect(p, i, EncodeFrame(answer.value) + more, later);
            && rest == more
            && (output.Ok? <==> HandshakeAgreement.SharesSecrets(p, i.ephPrivate, i.identity.x25519Private,
                                                                 r.ephPublic, r.bundle.x25519StaticPublic))
            && var frames := Streams.ReadFrames(written);
            && |frames| == 2 && frames[0] == hello.value
            && var accepted := Handshakes.HandleClientFinish(p, r1, frames[1]);
            && (accepted.Ok? <==> output.Ok?)
            && (output.Ok? ==> HandshakeAgreement.MirroredOutputs(output.value, accepted.value))
  {
    hide Handshakes.Validate, Handshakes.Common, Handshakes.BuildClientHello, Handshakes.HandleClientHello,
         Handshakes.HandleServerHello, Handshakes.BuildClientFinish, Handshakes.Finalize,
         Handshakes.HandleClientFinish, EncodeFrame, Streams.ReadFrame, HandshakeAgreement.MirroredOutputs,
         HandshakeAgreement.SharesSecrets, HandshakeAgreement.CanSign, HandshakeProtocol.WellFormed,
         Handshakes.Primitives.DhCommutes;
    HandshakeAgreement.HonestHandshakeCompletes(p, i, r, now, later);
    HandshakeAgreement.HonestHellosSucceed(p, i, r, now, later);
    var (hello, i1) := Handshakes.BuildClientHello(i);
    var (answer, r1) := Handshakes.HandleClientHello(p, r, hello.value, now);
    var i2 := Handshakes.HandleServerHello(p, i1, answer.value, later).1;
    var finish := Handshakes.BuildClientFinish(p, i2);
    HandshakeFramesFit(p, i, hello.value, now);
    HandshakeFramesFit(p, r, hello.value, now);
    HandshakeFramesFit(p, i2, hello.value, now);
    Streams.ReadFrameOf(answer.value, more);
    TwoFrames(hello.value, finish.value);
  }

  lemma TwoFrames(f: Frame, g: Frame)
    requires |f.payload| < TWO_32 && |g.payload| < TWO_32
    ensures Streams.ReadFrames(EncodeFrame(f) + EncodeFrame(g)) == [f, g]
  {
    hide EncodeFrame, Streams.ReadFrames;
    Streams.FramingRoundTrip([f, g]);
    assert [g][1..] == [] && [f, g][1..] == [g];
    assert EncodeFrames([g]) == EncodeFrame(g) + EncodeFrames([]) == EncodeFrame(g);
    assert EncodeFrames([f, g]) == EncodeFrame(f) + EncodeFrames([g]);
  }
}
