/** The record layer as a protocol: two endpoints, both directions, and a network that may
    drop, duplicate, reorder and invent frames, but not forge a sealed one.

    Every sealed frame is kept, by epoch and sequence number, and every delivery, by epoch and
    by the stretch of it between two changes of the replay mode; epochs are counted without
    bound while the endpoints carry the count modulo 2^32. */
module RecordProtocol {
  import opened Results
  import opened Bytes
  import opened Frames
  import opened ReplayWindow
  import opened HandshakeTypes
  import opened Sessions
  import Cipher

  /** The cryptography, what the handshake agreed on, and how far keys are ratcheted. */
  datatype Config = Config(
    suite: Cipher.Suite,
    sessionId: u64,
    initiatorKey: Bytes32,  // first key from initiator to responder
    responderKey: Bytes32,  // first key from responder to initiator
    horizon: nat)           // no run below rekeys more often than this
  {
    /** The key protecting what `sender` sends in its epoch number `n`. */
    ghost function Chain(sender: EndpointRole, n: nat): Bytes32 {
      if n == 0 then (if sender == Initiator then initiatorKey else responderKey)
      else Cipher.RekeyMaterial(suite, Chain(sender, n - 1), sessionId, TxDirection(sender))
    }

    /** No key repeats on the two chains, as far as they are walked. */
    ghost predicate KeysDistinct() {
      forall r, i, r', j | 0 <= i <= horizon && 0 <= j <= horizon && Chain(r, i) == Chain(r', j) ::
        r == r' && i == j
    }

    ghost predicate Ideal() {
      suite.Sound() && KeysDistinct()
    }
  }

  /** A frame and what the network saw of it. */
  datatype Sealed = Sealed(plain: Frame, wire: Frame)

  /** A frame handed to the application, and the sequence number it was opened under. */
  datatype Delivery = Delivery(sequence: u64, frame: Frame)

  /** What was accepted between two settings of the replay mode. */
  datatype Segment = Segment(mode: ReplayMode, got: seq<Delivery>)

  /** One endpoint: `outbound[e][q]` was sealed in epoch `e` under sequence number `q`;
      `inbound[e]` is what was accepted in the receiving epoch `e`, segment by segment. */
  datatype End = End(session: Session, outbound: seq<seq<Sealed>>, inbound: seq<seq<Segment>>) {
    predicate Started() {
      outbound != [] && inbound != [] && Last(inbound) != []
    }

    /** The segments of the receiving epoch in force, and the last of them. */
    function Epoch(): seq<Segment>
      requires Started()
    {
      Last(inbound)
    }

    function Current(): Segment
      requires Started()
    {
      Last(Last(inbound))
    }
  }

  datatype World = World(initiator: End, responder: End) {
    function At(role: EndpointRole): End {
      if role == Initiator then initiator else responder
    }

    function With(role: EndpointRole, e: End): (w: World)
      ensures w.At(role) == e && w.At(role.Peer()) == At(role.Peer())
    {
      if role == Initiator then this.(initiator := e) else this.(responder := e)
    }
  }

  datatype Event =
    | Encrypt(f: Frame, now: int)
    | Deliver(f: Frame, now: int)
    | DeliverUdp(f: Frame, sequence: u64, now: int)
    | RekeyOut(now: int)
    | RekeyIn
    | SetMode(mode: ReplayMode)
    | SetPolicy(maxBytes: u64, maxAge: int)
    | MarkManual

  datatype Action = Action(role: EndpointRole, event: Event)

  function Last<T>(s: seq<T>): T
    requires s != []
  {
    s[|s| - 1]
  }

  function WithLast<T>(s: seq<T>, x: T): (r: seq<T>)
    requires s != []
    ensures r != [] && Last(r) == x
  {
    s[|s| - 1 := x]
  }

  function AppendToLast<T>(s: seq<seq<T>>, x: T): (r: seq<seq<T>>)
    requires s != []
    ensures r != [] && Last(r) == Last(s) + [x]
  {
    WithLast(s, Last(s) + [x])
  }

  function Accept(e: End, s: Session, d: Delivery): (e': End)
    requires e.Started()
    ensures e'.Started()
  {
    var longer := e.Current().(got := e.Current().got + [d]);
    End(s, e.outbound, WithLast(e.inbound, WithLast(e.Epoch(), longer)))
  }

  /** What one event does at the endpoint it happens to. */
  function StepEnd(c: Cipher.Suite, e: End, ev: Event): (e': End)
    requires e.Started()
    ensures e'.Started()
  {
    match ev
    case Encrypt(f, now) =>
      var (r, s) := EncryptFrame(c, e.session, f, now);
      if r.Err? then e.(session := s)
      else End(s, AppendToLast(e.outbound, Sealed(f, r.value)), e.inbound)
    case Deliver(f, now) =>
      var (r, s) := DecryptFrame(c, e.session, f, now);
      if r.Err? then e.(session := s) else Accept(e, s, Delivery(e.session.rxSequence, r.value))
    case DeliverUdp(f, q, now) =>
      var (r, s) := DecryptFrameUdp(c, e.session, f, q, now);
      if r.Err? then e.(session := s) else Accept(e, s, Delivery(q, r.value))
    case RekeyOut(now) =>
      End(RekeyOutbound(c, e.session, now), e.outbound + [[]], e.inbound)
    case RekeyIn =>
      End(RekeyInbound(c, e.session), e.outbound, e.inbound + [[Segment(e.session.replayMode, [])]])
    case SetMode(mode) =>
      End(SetReplayMode(e.session, mode), e.outbound, AppendToLast(e.inbound, Segment(mode, [])))
    case SetPolicy(maxBytes, maxAge) => e.(session := SetRekeyPolicy(e.session, maxBytes, maxAge))
    case MarkManual => e.(session := MarkRekeyManual(e.session))
  }

  /** `r` sealed its frame number `q` of epoch `e` under this key, nonce and associated data,
      and `ciphertext` is what came out. */
  ghost predicate SealedAs(g: Config, w: World, r: EndpointRole, e: nat, q: nat,
                           key: Bytes32, nonce: Bytes, aad: Bytes, ciphertext: Bytes) {
    && e < |w.At(r).outbound| && q < |w.At(r).outbound[e]| && q <= MAX_U64
    && var record := w.At(r).outbound[e][q];
    && key == g.Chain(r, e)
    && nonce == Cipher.DeriveNonce(g.suite, g.sessionId, key, TxDirection(r), q)
    && aad == Cipher.BuildAAD(record.plain, e % TWO_32, q)
    && ciphertext == record.wire.payload
  }

  /** The network does not forge: what opens for `role` under sequence `q` was sealed. */
  ghost predicate Unforged(g: Config, w: World, role: EndpointRole, f: Frame, q: u64) {
    var s := w.At(role).session;
    OpenFrame(g.suite, s, f, q).Ok? ==>
      exists r, e, i :: SealedAs(g, w, r, e, i, s.rxKey, RxNonce(g.suite, s, q),
                                 Cipher.BuildAAD(f, s.rxEpoch, q), f.payload)
  }

  /** What the guarantees about receiving presuppose of an event: no forgery, and no
      ratcheting past the horizon. */
  ghost predicate Allowed(g: Config, w: World, a: Action) {
    var e := w.At(a.role);
    match a.event
    case Deliver(f, _) => Unforged(g, w, a.role, f, e.session.rxSequence)
    case DeliverUdp(f, q, _) => Unforged(g, w, a.role, f, q)
    case RekeyOut(_) => |e.outbound| <= g.horizon
    case RekeyIn => |e.inbound| <= g.horizon
    case _ => true
  }

  /** An endpoint as the handshake leaves it. */
  ghost predicate InitEnd(g: Config, role: EndpointRole, e: End) {
    && e.outbound == [[]] && e.inbound == [[Segment(OrderedTcp, [])]]
    && e.session.role == role && e.session.sessionId == g.sessionId
    && e.session.txKey == g.Chain(role, 0) && e.session.rxKey == g.Chain(role.Peer(), 0)
    && e.session.txEpoch == e.session.rxEpoch == 0
    && e.session.txSequence == e.session.rxSequence == 0
    && e.session.replayMode == OrderedTcp && e.session.marks == NO_MARKS
    && e.session.txBytesInEpoch == 0 && !e.session.rekeyRequired && e.session.rekeyReason == None
  }

  ghost predicate Init(g: Config, w: World) {
    InitEnd(g, Initiator, w.initiator) && InitEnd(g, Responder, w.responder)
  }

  /** A run: the worlds passed through and the actions between them. */
  ghost predicate IsRun(g: Config, ws: seq<World>, actions: seq<Action>) {
    && |ws| == |actions| + 1
    && Init(g, ws[0])
    && forall i | 0 <= i < |actions| :: Next(g, ws[i], actions[i], ws[i + 1])
  }

  ghost predicate Next(g: Config, w: World, a: Action, w': World) {
    Steps(g, w, a, w') && Allowed(g, w, a)
  }

  /** The same with nothing excluded: forged frames and any number of rekeys may occur. */
  ghost predicate IsOpenRun(g: Config, ws: seq<World>, actions: seq<Action>) {
    && |ws| == |actions| + 1
    && Init(g, ws[0])
    && forall i | 0 <= i < |actions| :: Steps(g, ws[i], actions[i], ws[i + 1])
  }

  ghost predicate Steps(g: Config, w: World, a: Action, w': World) {
    && w.At(a.role).Started()
    && w' == w.With(a.role, StepEnd(g.suite, w.At(a.role), a.event))
  }
}
