/** Both directions of a connection at once: each side sends, writes heartbeats and reads, in any
    order, on one session. */
module Duplex {
  import opened Results
  import opened Bytes
  import opened Frames
  import opened Sessions
  import opened Streams
  import Cipher

  /** One side: its session, what it sent and what it read, and the bytes written by the other
      side that it has not read yet. */
  datatype Side = Side(session: Session, sent: seq<Frame>, got: seq<Frame>, incoming: Bytes)

  datatype Connection = Connection(a: Side, b: Side) {
    function At(first: bool): Side {
      if first then a else b
    }

    function With(first: bool, side: Side, peer: Side): Connection {
      if first then Connection(side, peer) else Connection(peer, side)
    }
  }

  /** An item put on the stream, a frame to send or a heartbeat, or a read. Heartbeats that a
      send or a read writes besides are items of their own. */
  datatype Event = Put(item: Item) | Read(clock: nat -> int, touches: bool)

  datatype Action = Action(first: bool, event: Event)

  /** What an action does to the side it happens at and to the other one. A read on a stream that
      ends has used up what there was and goes on when more has come, as the next read. */
  function StepSides(c: Cipher.Suite, side: Side, peer: Side, ev: Event): (Side, Side) {
    match ev
    case Put(item) =>
      (side.(session := AfterItem(c, side.session, item), sent := side.sent + SentOf(c, side.session, item)),
       peer.(incoming := peer.incoming + EncodeFrames(WireOf(c, side.session, item))))
    case Read(clock, touches) =>
      var (r, s, rest) := ReadEncrypted(c, side.session, side.incoming, clock, touches);
      (side.(session := s, incoming := rest, got := side.got + if r.Ok? then [r.value] else []), peer)
  }

  function Step(c: Cipher.Suite, w: Connection, a: Action): Connection {
    var (side, peer) := StepSides(c, w.At(a.first), w.At(!a.first), a.event);
    w.With(a.first, side, peer)
  }

  ghost predicate IsRun(c: Cipher.Suite, ws: seq<Connection>, actions: seq<Action>) {
    && |ws| == |actions| + 1
    && Fresh(ws[0])
    && forall i | 0 <= i < |actions| :: ws[i + 1] == Step(c, ws[i], actions[i])
  }

  /** Two sessions that mirror each other, and nothing exchanged. */
  ghost predicate Fresh(w: Connection) {
    && Mirrored(w.a.session, w.b.session) && Mirrored(w.b.session, w.a.session)
    && w.a.sent == w.a.got == w.b.sent == w.b.got == [] && w.a.incoming == w.b.incoming == []
  }

  /** What can be delivered, as for a single direction. */
  ghost predicate Deliverable(fs: seq<Frame>) {
    NoneIsHeartbeat(fs) && CiphertextsFit(fs)
  }

  // ---- What is on the way ----

  /** The bytes on the way from a sender `s` to a receiver `r` read as the frames `owed`, after
      which the two mirror each other. */
  ghost predicate OnTheWay(c: Cipher.Suite, s: Session, r: Session, owed: seq<Frame>, stream: Bytes)
    decreases |stream|
  {
    if stream == [] then owed == [] && Mirrored(s, r) else
    match ReadFrame(stream)
    case Err(_) => false
    case Ok((f, rest)) =>
      if f.msgType == MSG_HEARTBEAT then OnTheWay(c, s, r, owed, rest)
      else
        && owed != [] && Cipher.HasEncryptedFlag(f.flags) && r.rxSequence < MAX_U64 && r.replayMode == OrderedTcp
        && OpenFrame(c, r, f, r.rxSequence) == Ok(owed[0])
        && OnTheWay(c, s, r.(rxSequence := r.rxSequence + 1), owed[1..], rest)
  }

  /** Only the sending half of the sender and the receiving half of the receiver matter. */
  ghost predicate SameHalves(s: Session, s': Session, r: Session, r': Session) {
    && s'.role == s.role && s'.sessionId == s.sessionId && s'.txKey == s.txKey
    && s'.txEpoch == s.txEpoch && s'.txSequence == s.txSequence
    && r'.role == r.role && r'.sessionId == r.sessionId && r'.rxKey == r.rxKey
    && r'.rxEpoch == r.rxEpoch && r'.rxSequence == r.rxSequence && r'.replayMode == r.replayMode
  }

  lemma {:induction false} HalvesDecide(c: Cipher.Suite, s: Session, s': Session, r: Session, r': Session,
                                        owed: seq<Frame>, stream: Bytes)
    requires OnTheWay(c, s, r, owed, stream) && SameHalves(s, s', r, r')
    ensures OnTheWay(c, s', r', owed, stream)
    decreases |stream|
  {
    hide ReadFrame, Cipher.DecryptFrame, Cipher.BuildAAD, Cipher.DeriveNonce;
    if stream != [] {
      var (f, rest) := ReadFrame(stream).value;
      if f.msgType == MSG_HEARTBEAT {
        HalvesDecide(c, s, s', r, r', owed, rest);
      } else {
        HalvesDecide(c, s, s', r.(rxSequence := r.rxSequence + 1), r'.(rxSequence := r.rxSequence + 1),
                     owed[1..], rest);
      }
    }
  }

  /** Bytes appended to a stream do not change the first frame on it. */
  lemma ReadsBefore(stream: Bytes, more: Bytes)
    requires ReadFrame(stream).Ok?
    ensures var (f, rest) := ReadFrame(stream).value;
            ReadFrame(stream + more) == Ok((f, rest + more))
  {
    hide ReadFrame, EncodeFrame;
    ReadFrameConsumes(stream);
    var (f, rest) := ReadFrame(stream).value;
    assert EncodeFrame(f) + rest + more == EncodeFrame(f) + (rest + more);
    ReadFrameOf(f, rest + more);
  }

  /** One more record at the end: what was owed, and then the new frame. */
  lemma {:induction false} RecordJoins(c: Cipher.Suite, s: Session, r: Session, owed: seq<Frame>, stream: Bytes,
                                       f: Frame, now: int)
    requires c.Sound() && OnTheWay(c, s, r, owed, stream)
    requires EncryptFrame(c, s, f, now).0.Ok? && Deliverable([f])
    ensures var (enc, s') := EncryptFrame(c, s, f, now);
            OnTheWay(c, s', r, owed + [f], stream + EncodeFrame(enc.value))
    decreases |stream|
  {
    hide ReadFrame, EncryptFrame, EncodeFrame, OpenFrame, Cipher.Suite.Sound, Deliverable;
    var (enc, s') := EncryptFrame(c, s, f, now);
    var more := EncodeFrame(enc.value);
    if stream == [] {
      LastRecord(c, s, r, f, now);
      assert stream + more == more && owed + [f] == [f];
    } else {
      ReadsBefore(stream, more);
      var (g, rest) := ReadFrame(stream).value;
      if g.msgType == MSG_HEARTBEAT {
        RecordJoins(c, s, r, owed, rest, f, now);
      } else {
        RecordJoins(c, s, r.(rxSequence := r.rxSequence + 1), owed[1..], rest, f, now);
        assert (owed + [f])[1..] == owed[1..] + [f];
      }
    }
  }

  lemma LastRecord(c: Cipher.Suite, s: Session, r: Session, f: Frame, now: int)
    requires c.Sound() && Mirrored(s, r) && EncryptFrame(c, s, f, now).0.Ok? && Deliverable([f])
    ensures var (enc, s') := EncryptFrame(c, s, f, now);
            EncodeFrame(enc.value) != [] && OnTheWay(c, s', r, [f], EncodeFrame(enc.value))
  {
    hide ReadFrame, EncryptFrame, Cipher.Suite.Sound, OpenFrame;
    var (enc, s') := EncryptFrame(c, s, f, now);
    MirroredOpens(c, s, r, f, now, now);
    assert f in [f];
    ReadFrameOf(enc.value, []);
    assert EncodeFrame(enc.value) + [] == EncodeFrame(enc.value);
    OrderedOpens(c, r, enc.value, now);
    HalvesAfter(c, s', r, DecryptFrame(c, r, enc.value, now).1);
  }

  /** What an accepting ordered call did. */
  lemma OrderedOpens(c: Cipher.Suite, r: Session, f: Frame, now: int)
    requires DecryptFrame(c, r, f, now).0.Ok?
    ensures Cipher.HasEncryptedFlag(f.flags) && r.rxSequence < MAX_U64 && r.replayMode == OrderedTcp
    ensures DecryptFrame(c, r, f, now)
         == (OpenFrame(c, r, f, r.rxSequence), r.(rxSequence := r.rxSequence + 1, lastSeen := now))
  {}

  lemma HalvesAfter(c: Cipher.Suite, s: Session, r: Session, r': Session)
    requires Mirrored(s, r') && r'.rxSequence == r.rxSequence + 1
    requires r' == r.(rxSequence := r'.rxSequence, lastSeen := r'.lastSeen)
    ensures OnTheWay(c, s, r.(rxSequence := r.rxSequence + 1), [], [])
  {}

  lemma {:induction false} HeartbeatJoins(c: Cipher.Suite, s: Session, r: Session, owed: seq<Frame>, stream: Bytes)
    requires OnTheWay(c, s, r, owed, stream)
    ensures OnTheWay(c, s, r, owed, stream + EncodeFrame(HEARTBEAT))
    decreases |stream|
  {
    hide ReadFrame, OpenFrame;
    var more := EncodeFrame(HEARTBEAT);
    if stream == [] {
      ReadFrameOf(HEARTBEAT, []);
      assert stream + more == more == more + [];
    } else {
      ReadsBefore(stream, more);
      var (g, rest) := ReadFrame(stream).value;
      if g.msgType == MSG_HEARTBEAT {
        HeartbeatJoins(c, s, r, owed, rest);
      } else {
        HeartbeatJoins(c, s, r.(rxSequence := r.rxSequence + 1), owed[1..], rest);
      }
    }
  }

  /** A read returns the next frame owed; with nothing owed it only uses up heartbeats. */
  lemma {:induction false} ReadsNext(c: Cipher.Suite, s: Session, r: Session, owed: seq<Frame>, stream: Bytes,
                                     clock: nat -> int, touches: bool)
    requires OnTheWay(c, s, r, owed, stream)
    ensures var (d, r', rest) := ReadEncrypted(c, r, stream, clock, touches);
            if owed == [] then d == Err(EOF) && rest == [] && OnTheWay(c, s, r', [], [])
            else d == Ok(owed[0]) && OnTheWay(c, s, r', owed[1..], rest)
    ensures var r' := ReadEncrypted(c, r, stream, clock, touches).1;
            r' == r.(rxSequence := r'.rxSequence, lastSeen := r'.lastSeen)
    decreases |stream|
  {
    hide ReadFrame, OpenFrame;
    if stream == [] {
      NothingToRead();
    } else {
      var (f, rest) := ReadFrame(stream).value;
      var now := clock(|rest|);
      if f.msgType == MSG_HEARTBEAT {
        var touched := if touches then r.(lastSeen := now) else r;
        HalvesDecide(c, s, s, r, touched, owed, rest);
        ReadsNext(c, s, touched, owed, rest, clock, touches);
      } else {
        var r' := r.(rxSequence := r.rxSequence + 1);
        HalvesDecide(c, s, s, r', r'.(lastSeen := now), owed[1..], rest);
      }
    }
  }

  lemma NothingToRead()
    ensures ReadFrame([]) == Err(EOF)
  {}

  // ---- The invariant ----

  /** From one side to the other: what was read is a prefix of what was sent, and the rest is
      on the way. */
  ghost predicate Flows(c: Cipher.Suite, from: Side, to: Side) {
    to.got <= from.sent && OnTheWay(c, from.session, to.session, from.sent[|to.got|..], to.incoming)
  }

  ghost predicate Inv(c: Cipher.Suite, w: Connection) {
    Flows(c, w.a, w.b) && Flows(c, w.b, w.a)
  }

  lemma PutKeeps(c: Cipher.Suite, side: Side, peer: Side, item: Item)
    requires c.Sound() && Flows(c, side, peer) && Flows(c, peer, side)
    requires Deliverable(StepSides(c, side, peer, Put(item)).0.sent)
    ensures var (side', peer') := StepSides(c, side, peer, Put(item));
            Flows(c, side', peer') && Flows(c, peer', side')
  {
    hide OnTheWay, EncodeFrame, Cipher.Suite.Sound, EncryptFrame;
    var (side', peer') := StepSides(c, side, peer, Put(item));
    var owed := side.sent[|peer.got|..];
    match item
    case Beat =>
      HeartbeatJoins(c, side.session, peer.session, owed, peer.incoming);
      EncodesOne(HEARTBEAT);
      assert side'.sent == side.sent;
    case Send(f, now) =>
      EncryptKeepsRest(c, side.session, f, now);
      HalvesDecide(c, peer.session, peer.session, side.session, side'.session, peer.sent[|side.got|..], side.incoming);
      var enc := EncryptFrame(c, side.session, f, now).0;
      if enc.Ok? {
        assert f in side'.sent;
        RecordJoins(c, side.session, peer.session, owed, peer.incoming, f, now);
        assert side'.sent[|peer.got|..] == owed + [f];
        EncodesOne(enc.value);
      } else {
        assert side'.sent == side.sent && peer'.incoming == peer.incoming;
      }
  }

  lemma EncodesOne(f: Frame)
    ensures EncodeFrames([f]) == EncodeFrame(f)
  {
    hide EncodeFrame;
    assert EncodeFrames([f]) == EncodeFrame(f) + EncodeFrames([]);
  }

  /** Encrypting leaves the receiving half alone, and a refusal everything. */
  lemma EncryptKeepsRest(c: Cipher.Suite, s: Session, f: Frame, now: int)
    ensures var (r, s') := EncryptFrame(c, s, f, now);
            && s'.role == s.role && s'.sessionId == s.sessionId && s'.rxKey == s.rxKey
            && s'.rxEpoch == s.rxEpoch && s'.rxSequence == s.rxSequence && s'.replayMode == s.replayMode
            && (r.Err? ==> s' == s)
  {}

  lemma ReadKeeps(c: Cipher.Suite, side: Side, peer: Side, clock: nat -> int, touches: bool)
    requires Flows(c, side, peer) && Flows(c, peer, side)
    ensures var (side', peer') := StepSides(c, side, peer, Read(clock, touches));
            Flows(c, side', peer') && Flows(c, peer', side')
  {
    hide OnTheWay, ReadEncrypted;
    var owed := peer.sent[|side.got|..];
    ReadsNext(c, peer.session, side.session, owed, side.incoming, clock, touches);
    var (side', peer') := StepSides(c, side, peer, Read(clock, touches));
    HalvesDecide(c, side.session, side'.session, peer.session, peer.session, side.sent[|peer.got|..], peer.incoming);
    if owed != [] {
      assert peer.sent[|side.got| + 1..] == owed[1..];
      assert peer.sent[|side.got|] == owed[0];
    }
  }

  /** What was sent only grows, so what is deliverable at the end was deliverable before. */
  lemma SentGrows(c: Cipher.Suite, w: Connection, a: Action, first: bool)
    ensures w.At(first).sent <= Step(c, w, a).At(first).sent
  {
    hide EncryptFrame, ReadEncrypted, EncodeFrame;
  }

  lemma StepKeeps(c: Cipher.Suite, w: Connection, a: Action)
    requires c.Sound() && Inv(c, w)
    requires Deliverable(Step(c, w, a).a.sent) && Deliverable(Step(c, w, a).b.sent)
    ensures Inv(c, Step(c, w, a))
  {
    hide Flows, Deliverable, StepSides, Cipher.Suite.Sound;
    var side, peer := w.At(a.first), w.At(!a.first);
    match a.event
    case Put(item) => PutKeeps(c, side, peer, item);
    case Read(clock, touches) => ReadKeeps(c, side, peer, clock, touches);
  }

  lemma FreshInv(c: Cipher.Suite, w: Connection)
    requires Fresh(w)
    ensures Inv(c, w)
  {}

  lemma PrefixDeliverable(fs: seq<Frame>, gs: seq<Frame>)
    requires fs <= gs && Deliverable(gs)
    ensures Deliverable(fs)
  {
    assert forall f | f in fs :: f in gs;
  }

  /** As long as everything sent so far can be delivered, the invariant holds. */
  lemma {:induction false} RunKeeps(c: Cipher.Suite, ws: seq<Connection>, actions: seq<Action>, n: nat)
    requires c.Sound() && IsRun(c, ws, actions) && n < |ws|
    requires Deliverable(ws[n].a.sent) && Deliverable(ws[n].b.sent)
    ensures Inv(c, ws[n])
  {
    hide Inv, Step, Deliverable, Cipher.Suite.Sound;
    if n == 0 {
      FreshInv(c, ws[0]);
    } else {
      SentGrows(c, ws[n - 1], actions[n - 1], true);
      SentGrows(c, ws[n - 1], actions[n - 1], false);
      PrefixDeliverable(ws[n - 1].a.sent, ws[n].a.sent);
      PrefixDeliverable(ws[n - 1].b.sent, ws[n].b.sent);
      RunKeeps(c, ws, actions, n - 1);
      StepKeeps(c, ws[n - 1], actions[n - 1]);
    }
  }

  /** `side` has read a prefix of what `peer` sent, all of it once the stream is used up, and its
      next read returns the next frame, or nothing when all was read. */
  ghost predicate DeliveredTo(c: Cipher.Suite, side: Side, peer: Side) {
    && side.got <= peer.sent
    && (side.incoming == [] ==> side.got == peer.sent)
    && forall clock, touches ::
         ReadEncrypted(c, side.session, side.incoming, clock, touches).0
           == if side.got == peer.sent then Err(EOF) else Ok(peer.sent[|side.got|])
  }

  ghost predicate Delivered(c: Cipher.Suite, w: Connection) {
    DeliveredTo(c, w.a, w.b) && DeliveredTo(c, w.b, w.a)
  }

  lemma FlowDelivers(c: Cipher.Suite, side: Side, peer: Side)
    requires Flows(c, peer, side)
    ensures DeliveredTo(c, side, peer)
  {
    hide ReadEncrypted;
    var owed := peer.sent[|side.got|..];
    forall clock, touches
      ensures ReadEncrypted(c, side.session, side.incoming, clock, touches).0
           == if owed == [] then Err(EOF) else Ok(owed[0])
    {
      ReadsNext(c, peer.session, side.session, owed, side.incoming, clock, touches);
    }
  }

  /** Both directions together: however sends, heartbeats and reads of the two sides interleave,
      what was sent and can be delivered is delivered. */
  lemma BothDirectionsDeliver(c: Cipher.Suite, ws: seq<Connection>, actions: seq<Action>, n: nat)
    requires c.Sound() && IsRun(c, ws, actions) && n < |ws|
    requires Deliverable(ws[n].a.sent) && Deliverable(ws[n].b.sent)
    ensures Delivered(c, ws[n])
  {
    hide IsRun, Deliverable, DeliveredTo, Flows, Cipher.Suite.Sound;
    RunKeeps(c, ws, actions, n);
    FlowDelivers(c, ws[n].a, ws[n].b);
    FlowDelivers(c, ws[n].b, ws[n].a);
  }
}
