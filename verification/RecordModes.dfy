/** Setting the replay mode in the middle of an epoch: exactly when it lets a record that was
    accepted be accepted again. */
module RecordModes {
  import opened Results
  import opened Bytes
  import opened Frames
  import opened ReplayWindow
  import opened HandshakeTypes
  import opened Sessions
  import opened RecordProtocol
  import opened RecordInvariant
  import opened RecordGuarantees
  import Cipher

  /** Number `q` was accepted in one of the segments. */
  ghost predicate Accepted(segments: seq<Segment>, q: nat) {
    exists k, i | 0 <= k < |segments| && 0 <= i < |segments[k].got| :: segments[k].got[i].sequence == q
  }

  /** The segment in force holds a number accepted earlier in the epoch. */
  ghost predicate Repeats(end: End)
    requires end.Started()
  {
    exists i | 0 <= i < |end.Current().got| ::
      Accepted(end.Epoch()[..|end.Epoch()| - 1], end.Current().got[i].sequence)
  }

  /** The action does not start a segment at `role`. */
  predicate StaysInSegment(a: Action, role: EndpointRole) {
    a.role == role ==> !a.event.SetMode? && !a.event.RekeyIn?
  }

  /** A stretch of a run in which `role` stays in one segment. */
  ghost predicate Continues(g: Config, ws: seq<World>, actions: seq<Action>, role: EndpointRole) {
    && |ws| == |actions| + 1
    && forall i | 0 <= i < |actions| :: Next(g, ws[i], actions[i], ws[i + 1]) && StaysInSegment(actions[i], role)
  }

  /** Some stretch of a run from here on accepts again, in the segment in force, a number
      accepted earlier in the epoch. */
  ghost predicate MayRepeat(g: Config, w: World, role: EndpointRole) {
    exists ws: seq<World>, actions: seq<Action> ::
      && Continues(g, ws, actions, role) && ws[0] == w
      && ws[|actions|].At(role).Started() && Repeats(ws[|actions|].At(role))
  }

  function ModeSet(g: Config, w: World, role: EndpointRole, mode: ReplayMode): World
    requires w.At(role).Started()
  {
    w.With(role, StepEnd(g.suite, w.At(role), SetMode(mode)))
  }

  // ---- Genuine records ----

  /** A sealed frame carries the associated data of the frame it was made from. */
  lemma WireAad(g: Config, role: EndpointRole, e: nat, q: nat, record: Sealed)
    requires SealedRight(g, role, e, q, record)
    ensures Cipher.BuildAAD(record.wire, e % TWO_32, q) == Cipher.BuildAAD(record.plain, e % TWO_32, q)
  {
    hide Config.Chain, Cipher.DeriveNonce;
  }

  /** Delivering a record of the epoch under its own number is no forgery. */
  lemma GenuineIsUnforged(g: Config, w: World, role: EndpointRole, q: u64)
    requires Inv(g, w) && w.At(role).Started()
    requires q < |EpochOf(w.At(role.Peer()), |w.At(role).inbound| - 1)|
    ensures Unforged(g, w, role, EpochOf(w.At(role.Peer()), |w.At(role).inbound| - 1)[q].wire, q)
  {
    hide Config.Chain, AcceptedRight, OrderedGot, OpenFrame, Cipher.DeriveNonce, Cipher.BuildAAD, SealedRight, Inv;
    InvParts(g, w, role);
    var s, k := w.At(role).session, |w.At(role).inbound| - 1;
    var record := w.At(role.Peer()).outbound[k][q];
    assert SealedRight(g, role.Peer(), k, q, record);
    WireAad(g, role.Peer(), k, q, record);
    assert SealedAs(g, w, role.Peer(), k, q, s.rxKey, RxNonce(g.suite, s, q),
                    Cipher.BuildAAD(record.wire, s.rxEpoch, q), record.wire.payload);
  }

  /** Every accepted number belongs to a record of the epoch. */
  lemma AcceptedIsSealed(g: Config, role: EndpointRole, end: End, peer: End, q: nat)
    requires InInv(g, role, end, peer) && Accepted(end.Epoch(), q)
    ensures q < |EpochOf(peer, |end.inbound| - 1)| && q <= MAX_U64
  {
    hide OrderedGot, Config.Chain;
    var e := |end.inbound| - 1;
    assert AcceptedRight(end.inbound[e], EpochOf(peer, e));
    var k, i :| 0 <= k < |end.Epoch()| && 0 <= i < |end.Epoch()[k].got| && end.Epoch()[k].got[i].sequence == q;
    assert SegmentRight(end.Epoch()[k], EpochOf(peer, e));
  }

  // ---- After setting UDP mode ----

  /** Setting UDP mode empties the window: whatever was accepted in the epoch, in either mode,
      is accepted again. */
  lemma UdpAcceptsAgain(g: Config, w: World, role: EndpointRole, q: u64, now: int)
    requires g.Ideal() && Inv(g, w) && w.At(role).Started() && Accepted(w.At(role).Epoch(), q)
    ensures q < |EpochOf(w.At(role.Peer()), |w.At(role).inbound| - 1)|
    ensures var record := EpochOf(w.At(role.Peer()), |w.At(role).inbound| - 1)[q];
            var s := SetReplayMode(w.At(role).session, SlidingUdp);
            DecryptFrameUdp(g.suite, s, record.wire, q, now)
              == (Ok(record.plain), s.(marks := NO_MARKS.Add(q), lastSeen := now))
  {
    hide Config.Ideal, Config.Chain, AcceptedRight, OrderedGot, OutInv, InInv, Cipher.DeriveNonce, Cipher.BuildAAD;
    var end, peer := w.At(role), w.At(role.Peer());
    AcceptedIsSealed(g, role, end, peer, q);
    GenuineOpens(g, role, end, peer, q);
  }

  lemma RepeatsInUdp(g: Config, w: World, role: EndpointRole, q: u64)
    requires g.Ideal() && Inv(g, w) && w.At(role).Started() && Accepted(w.At(role).Epoch(), q)
    ensures MayRepeat(g, ModeSet(g, w, role, SlidingUdp), role)
  {
    hide Config.Ideal, Inv, EncryptFrame, DecryptFrame, DecryptFrameUdp, Accepted, Unforged;
    UdpAcceptsAgain(g, w, role, q, 0);
    var record := EpochOf(w.At(role.Peer()), |w.At(role).inbound| - 1)[q];
    var w0 := ModeSet(g, w, role, SlidingUdp);
    SetModeKeepsInv(g, w, role, SlidingUdp);
    var a := Action(role, DeliverUdp(record.wire, q, 0));
    GenuineIsUnforged(g, w0, role, q);
    var w1 := w0.With(role, StepEnd(g.suite, w0.At(role), a.event));
    assert w1.At(role).Current().got == [Delivery(q, record.plain)];
    assert w1.At(role).Epoch()[..|w1.At(role).Epoch()| - 1] == w.At(role).Epoch();
    assert w1.At(role).Current().got[0].sequence == q;
    assert Continues(g, [w0, w1], [a], role);
  }

  /** A mode setting opens an empty segment and leaves the counters and the peer alone. */
  lemma ModeSetOpens(g: Config, w: World, role: EndpointRole, mode: ReplayMode)
    requires w.At(role).Started()
    ensures var w', end := ModeSet(g, w, role, mode), w.At(role);
            var end' := w'.At(role);
            && w'.At(role.Peer()) == w.At(role.Peer()) && end'.Started() && |end'.inbound| == |end.inbound|
            && |end'.Epoch()| == |end.Epoch()| + 1 && end'.Epoch()[..|end.Epoch()|] == end.Epoch()
            && end'.Current() == Segment(mode, []) && end'.session.rxSequence == end.session.rxSequence
  {
    hide EncryptFrame, DecryptFrame, DecryptFrameUdp;
  }

  lemma SetModeKeepsInv(g: Config, w: World, role: EndpointRole, mode: ReplayMode)
    requires g.Ideal() && Inv(g, w) && w.At(role).Started()
    ensures Inv(g, ModeSet(g, w, role, mode))
  {
    hide Config.Ideal, Inv, StepEnd;
    StepKeepsInv(g, w, Action(role, SetMode(mode)), ModeSet(g, w, role, mode));
  }

  // ---- After setting ordered mode ----

  /** The world after the next record of an ordered epoch was delivered. */
  lemma DeliverNext(g: Config, w: World, role: EndpointRole) returns (a: Action, w': World)
    requires g.Ideal() && Inv(g, w) && w.At(role).Started() && w.At(role).Current().mode == OrderedTcp
    requires w.At(role).session.rxSequence < |EpochOf(w.At(role.Peer()), |w.At(role).inbound| - 1)|
    ensures Next(g, w, a, w') && StaysInSegment(a, role) && Inv(g, w')
    ensures w'.At(role.Peer()) == w.At(role.Peer())
    ensures var e, e' := w.At(role), w'.At(role);
            && e'.Started() && |e'.inbound| == |e.inbound| && |e'.Epoch()| == |e.Epoch()|
            && e'.Epoch()[..|e.Epoch()| - 1] == e.Epoch()[..|e.Epoch()| - 1]
            && e'.Current().mode == OrderedTcp && e'.session.rxSequence == e.session.rxSequence + 1
            && |e'.Current().got| == |e.Current().got| + 1
            && Last(e'.Current().got).sequence == e.session.rxSequence
  {
    hide Config.Ideal, Inv, EncryptFrame, DecryptFrame, DecryptFrameUdp, Unforged, EpochOf;
    var end, peer := w.At(role), w.At(role.Peer());
    var q := end.session.rxSequence;
    var record := EpochOf(peer, |end.inbound| - 1)[q];
    InvParts(g, w, role);
    NextOpens(g, role, end, peer, 0);
    GenuineIsUnforged(g, w, role, q);
    OrderedOutcome(g.suite, end.session, record.wire, 0);
    a := Action(role, Deliver(record.wire, 0));
    w' := w.With(role, StepEnd(g.suite, end, a.event));
    StepKeepsInv(g, w, a, w');
  }

  lemma InvParts(g: Config, w: World, role: EndpointRole)
    requires Inv(g, w)
    ensures InInv(g, role, w.At(role), w.At(role.Peer())) && OutInv(g, role.Peer(), w.At(role.Peer()))
  {}

  /** Delivering the records of an ordered epoch one after the other reaches any of them. */
  lemma {:induction false} DeliverUpTo(g: Config, w: World, role: EndpointRole, q: nat)
    returns (ws: seq<World>, actions: seq<Action>)
    requires g.Ideal() && Inv(g, w) && w.At(role).Started() && w.At(role).Current().mode == OrderedTcp
    requires w.At(role).session.rxSequence <= q < |EpochOf(w.At(role.Peer()), |w.At(role).inbound| - 1)|
    ensures Continues(g, ws, actions, role) && ws[0] == w
    ensures var e, e' := w.At(role), ws[|actions|].At(role);
            && e'.Started() && |e'.Epoch()| == |e.Epoch()|
            && e'.Epoch()[..|e.Epoch()| - 1] == e.Epoch()[..|e.Epoch()| - 1]
            && e'.Current().got != [] && Last(e'.Current().got).sequence == q
    decreases q - w.At(role).session.rxSequence
  {
    hide Config.Ideal, Inv, Next;
    var a, w' := DeliverNext(g, w, role);
    if w.At(role).session.rxSequence == q {
      ws, actions := [w, w'], [a];
    } else {
      var rest, more := DeliverUpTo(g, w', role, q);
      ws, actions := [w] + rest, [a] + more;
      ContinuesFrom(g, w, a, rest, more, role);
    }
  }

  lemma ContinuesFrom(g: Config, w: World, a: Action, ws: seq<World>, actions: seq<Action>, role: EndpointRole)
    requires Continues(g, ws, actions, role) && Next(g, w, a, ws[0]) && StaysInSegment(a, role)
    ensures Continues(g, [w] + ws, [a] + actions, role)
  {
    hide Next;
    var ws', actions' := [w] + ws, [a] + actions;
    forall i | 0 <= i < |actions'|
      ensures Next(g, ws'[i], actions'[i], ws'[i + 1]) && StaysInSegment(actions'[i], role)
    {
      if i > 0 {
        assert ws'[i] == ws[i - 1] && ws'[i + 1] == ws[i] && actions'[i] == actions[i - 1];
      }
    }
  }

  lemma RepeatsInOrder(g: Config, w: World, role: EndpointRole, q: nat)
    requires g.Ideal() && Inv(g, w) && w.At(role).Started()
    requires Accepted(w.At(role).Epoch(), q) && q >= w.At(role).session.rxSequence
    ensures MayRepeat(g, ModeSet(g, w, role, OrderedTcp), role)
  {
    hide Config.Ideal, Inv, InInv, OutInv, Next, Accepted, ModeSet;
    var w0 := ModeSet(g, w, role, OrderedTcp);
    SetModeKeepsInv(g, w, role, OrderedTcp);
    ModeSetOpens(g, w, role, OrderedTcp);
    InvParts(g, w, role);
    AcceptedIsSealed(g, role, w.At(role), w.At(role.Peer()), q);
    var ws, actions := DeliverUpTo(g, w0, role, q);
    var got := ws[|actions|].At(role).Current().got;
    assert got[|got| - 1].sequence == q;
  }

  // ---- What stays in a segment ----

  /** Staying in a segment leaves the earlier ones, and its mode, as they are. */
  ghost predicate SameSegment(e: End, e': End) {
    && e.Started() && e'.Started()
    && |e'.inbound| == |e.inbound| && |e'.Epoch()| == |e.Epoch()|
    && e'.Epoch()[..|e.Epoch()| - 1] == e.Epoch()[..|e.Epoch()| - 1]
    && e'.Current().mode == e.Current().mode
  }

  lemma StepStays(g: Config, w: World, a: Action, w': World, role: EndpointRole)
    requires Next(g, w, a, w') && StaysInSegment(a, role) && w.At(role).Started()
    ensures SameSegment(w.At(role), w'.At(role))
  {
    hide Allowed, EncryptFrame, DecryptFrame, DecryptFrameUdp;
    if a.role != role {
      assert a.role.Peer() == role;
    }
  }

  lemma {:induction false} StretchStays(g: Config, ws: seq<World>, actions: seq<Action>, role: EndpointRole)
    requires g.Ideal() && Continues(g, ws, actions, role) && Inv(g, ws[0]) && ws[0].At(role).Started()
    ensures Inv(g, ws[|actions|]) && SameSegment(ws[0].At(role), ws[|actions|].At(role))
  {
    hide Config.Ideal, Inv, Next;
    for i := 0 to |actions|
      invariant Inv(g, ws[i]) && SameSegment(ws[0].At(role), ws[i].At(role))
    {
      StepKeepsInv(g, ws[i], actions[i], ws[i + 1]);
      StepStays(g, ws[i], actions[i], ws[i + 1], role);
    }
  }

  /** In an ordered segment numbers go on from the ordered counter it started with. */
  lemma OrderedGoesOn(g: Config, role: EndpointRole, end: End, peer: End, i: nat)
    requires InInv(g, role, end, peer) && end.Current().mode == OrderedTcp && i < |end.Current().got|
    ensures end.Current().got[i].sequence >= |OrderedGot(end.Epoch()[..|end.Epoch()| - 1])|
  {
    hide Config.Chain, OrderedGot, SegmentRight;
    assert AcceptedRight(end.inbound[|end.inbound| - 1], EpochOf(peer, |end.inbound| - 1));
    LastOrdered(end.Epoch(), i);
  }

  lemma CounterIsOrderedCount(g: Config, role: EndpointRole, end: End, peer: End)
    requires InInv(g, role, end, peer)
    ensures end.session.rxSequence == |OrderedGot(end.Epoch())|
  {}

  /** What follows repeats nothing if ordered mode was set and no accepted number reaches the
      ordered counter. */
  lemma NoRepeat(g: Config, w: World, role: EndpointRole, mode: ReplayMode)
    requires g.Ideal() && Inv(g, w) && w.At(role).Started() && MayRepeat(g, ModeSet(g, w, role, mode), role)
    ensures exists q: nat ::
              Accepted(w.At(role).Epoch(), q) && (mode == SlidingUdp || q >= w.At(role).session.rxSequence)
  {
    hide Config.Ideal, Inv, InInv, OutInv, Next, Accepted, ModeSet, Repeats, OrderedGot;
    var w0 := ModeSet(g, w, role, mode);
    SetModeKeepsInv(g, w, role, mode);
    ModeSetOpens(g, w, role, mode);
    var ws: seq<World>, actions: seq<Action> :| Continues(g, ws, actions, role) && ws[0] == w0
                       && ws[|actions|].At(role).Started() && Repeats(ws[|actions|].At(role));
    StretchStays(g, ws, actions, role);
    InvParts(g, ws[|actions|], role);
    InvParts(g, w, role);
    CounterIsOrderedCount(g, role, w.At(role), w.At(role.Peer()));
    RepeatReaches(g, role, w.At(role).Epoch(), ws[|actions|].At(role), ws[|actions|].At(role.Peer()));
  }

  /** A repeated number was accepted in the segments before, and in an ordered segment it is not
      below the ordered counter they left. */
  lemma RepeatReaches(g: Config, role: EndpointRole, before: seq<Segment>, end: End, peer: End)
    requires InInv(g, role, end, peer) && end.Started() && Repeats(end) && before == end.Epoch()[..|end.Epoch()| - 1]
    ensures exists q: nat ::
              Accepted(before, q) && (end.Current().mode == SlidingUdp || q >= |OrderedGot(before)|)
  {
    hide InInv, Accepted, OrderedGot;
    var i :| 0 <= i < |end.Current().got| && Accepted(before, end.Current().got[i].sequence);
    var q := end.Current().got[i].sequence;
    if end.Current().mode == OrderedTcp {
      OrderedGoesOn(g, role, end, peer, i);
    }
    assert Accepted(before, q);
  }

  /** Exactly when setting the mode lets an accepted record be accepted again: UDP mode as soon
      as anything was accepted in the epoch, ordered mode when an accepted number has reached
      the ordered counter. */
  lemma ModeChangeRepeatsExactly(g: Config, ws: seq<World>, actions: seq<Action>, w: World,
                                 role: EndpointRole, mode: ReplayMode)
    requires g.Ideal() && IsRun(g, ws, actions) && w in ws && w.At(role).Started()
    ensures MayRepeat(g, ModeSet(g, w, role, mode), role)
       <==> exists q: nat :: Accepted(w.At(role).Epoch(), q)
                             && (mode == SlidingUdp || q >= w.At(role).session.rxSequence)
  {
    hide Config.Ideal, Inv, IsRun, MayRepeat, Accepted, StepEnd;
    RunKeepsInv(g, ws, actions);
    if q: nat :| Accepted(w.At(role).Epoch(), q) && (mode == SlidingUdp || q >= w.At(role).session.rxSequence) {
      InvParts(g, w, role);
      AcceptedIsSealed(g, role, w.At(role), w.At(role.Peer()), q);
      if mode == SlidingUdp {
        RepeatsInUdp(g, w, role, q);
      } else {
        RepeatsInOrder(g, w, role, q);
      }
    }
    if MayRepeat(g, ModeSet(g, w, role, mode), role) {
      NoRepeat(g, w, role, mode);
    }
  }

  /** In an epoch whose mode was not set before and in which something was accepted, setting a
      mode keeps at-most-once delivery exactly when it sets ordered mode where it already was. */
  lemma FirstModeChange(g: Config, ws: seq<World>, actions: seq<Action>, w: World,
                        role: EndpointRole, mode: ReplayMode)
    requires g.Ideal() && IsRun(g, ws, actions) && w in ws && w.At(role).Started()
    requires |w.At(role).Epoch()| == 1 && w.At(role).Current().got != []
    ensures MayRepeat(g, ModeSet(g, w, role, mode), role)
       <==> !(mode == OrderedTcp && w.At(role).Current().mode == OrderedTcp)
  {
    hide Config.Ideal, Inv, IsRun, MayRepeat, StepEnd, InInv, OutInv, Accepted;
    RunKeepsInv(g, ws, actions);
    InvParts(g, w, role);
    ModeChangeRepeatsExactly(g, ws, actions, w, role, mode);
    FirstSegmentReaches(g, role, w.At(role), w.At(role.Peer()));
  }

  /** In the first segment of an epoch the ordered counter is above every accepted number in
      ordered mode, and still zero in UDP mode. */
  lemma FirstSegmentReaches(g: Config, role: EndpointRole, end: End, peer: End)
    requires InInv(g, role, end, peer) && |end.Epoch()| == 1 && end.Current().got != []
    ensures Accepted(end.Epoch(), end.Current().got[0].sequence)
    ensures end.Current().mode == SlidingUdp ==> end.session.rxSequence == 0
    ensures end.Current().mode == OrderedTcp ==>
              forall q: nat | Accepted(end.Epoch(), q) :: q < end.session.rxSequence
  {
    hide Config.Chain, SegmentRight, OrderedGot, Counting;
    var got, segments := end.Current().got, end.Epoch();
    assert segments[0].got[0].sequence == got[0].sequence;
    assert AcceptedRight(end.inbound[|end.inbound| - 1], EpochOf(peer, |end.inbound| - 1));
    OnlySegment(segments);
    if end.Current().mode == OrderedTcp {
      CountsBelow(segments, got);
    }
  }

  lemma OnlySegment(segments: seq<Segment>)
    requires |segments| == 1
    ensures OrderedGot(segments) == if segments[0].mode == OrderedTcp then segments[0].got else []
  {
    assert OrderedGot(segments[..0]) == [];
  }

  lemma CountsBelow(segments: seq<Segment>, got: seq<Delivery>)
    requires |segments| == 1 && segments[0].got == got && Counting(got)
    ensures forall q: nat | Accepted(segments, q) :: q < |got|
  {}

  // ---- An undisturbed exchange ----

  /** From any initial state, sealing a frame and delivering it is a run, and it arrives. */
  lemma HonestExchange(g: Config, w: World, role: EndpointRole, f: Frame, now: int, later: int)
    returns (ws: seq<World>, actions: seq<Action>)
    requires g.Ideal() && Init(g, w) && !Cipher.HasEncryptedFlag(f.flags)
    ensures IsRun(g, ws, actions) && ws[0] == w
    ensures ws[|actions|].At(role.Peer()).inbound == [[Segment(OrderedTcp, [Delivery(0, f)])]]
  {
    hide Config.Ideal, Next, Init, Inv;
    var send, w1 := SendFirst(g, w, role, f, now);
    var receive, w2 := ReceiveFirst(g, w, w1, role, f, later);
    ws, actions := [w, w1, w2], [send, receive];
  }

  lemma SendFirst(g: Config, w: World, role: EndpointRole, f: Frame, now: int) returns (a: Action, w': World)
    requires g.Ideal() && Init(g, w) && !Cipher.HasEncryptedFlag(f.flags)
    ensures Next(g, w, a, w') && Inv(g, w') && w'.At(role.Peer()) == w.At(role.Peer())
    ensures var sealed := w'.At(role).outbound;
            |sealed| == |sealed[0]| == 1 && sealed[0][0].plain == f
  {
    hide Config.Ideal, Inv, StepEnd, Unforged;
    InitInv(g, w);
    a := Action(role, Encrypt(f, now));
    w' := w.With(role, StepEnd(g.suite, w.At(role), a.event));
    StepKeepsInv(g, w, a, w');
    SealsFirst(g, role, w.At(role), f, now);
  }

  lemma ReceiveFirst(g: Config, w: World, w1: World, role: EndpointRole, f: Frame, now: int)
    returns (a: Action, w': World)
    requires g.Ideal() && Init(g, w) && Inv(g, w1) && w1.At(role.Peer()) == w.At(role.Peer())
    requires var sealed := w1.At(role).outbound;
             |sealed| == 1 && |sealed[0]| == 1 && sealed[0][0].plain == f
    ensures Next(g, w1, a, w')
    ensures w'.At(role.Peer()).inbound == [[Segment(OrderedTcp, [Delivery(0, f)])]]
  {
    hide Config.Ideal, Inv, InInv, OutInv, DecryptFrame, Unforged, StepEnd;
    var peer := w1.At(role.Peer());
    var wire := w1.At(role).outbound[0][0].wire;
    assert InitEnd(g, role.Peer(), peer) && EpochOf(w1.At(role), 0) == w1.At(role).outbound[0];
    InvParts(g, w1, role.Peer());
    NextOpens(g, role.Peer(), peer, w1.At(role), now);
    GenuineIsUnforged(g, w1, role.Peer(), 0);
    ReceivesFirst(g, role.Peer(), peer, wire, now);
    a := Action(role.Peer(), Deliver(wire, now));
    w' := w1.With(role.Peer(), StepEnd(g.suite, peer, a.event));
  }

  lemma SealsFirst(g: Config, role: EndpointRole, e: End, f: Frame, now: int)
    requires InitEnd(g, role, e) && !Cipher.HasEncryptedFlag(f.flags)
    ensures var e' := StepEnd(g.suite, e, Encrypt(f, now));
            |e'.outbound| == |e'.outbound[0]| == 1 && e'.outbound[0][0].plain == f
  {
    hide Cipher.DeriveNonce, Cipher.BuildAAD, Config.Chain;
  }

  lemma ReceivesFirst(g: Config, role: EndpointRole, e: End, wire: Frame, now: int)
    requires InitEnd(g, role, e) && DecryptFrame(g.suite, e.session, wire, now).0.Ok?
    ensures var r := DecryptFrame(g.suite, e.session, wire, now).0.value;
            StepEnd(g.suite, e, Deliver(wire, now)).inbound == [[Segment(OrderedTcp, [Delivery(0, r)])]]
  {
    hide DecryptFrame;
    var got := Segment(OrderedTcp, [Delivery(0, DecryptFrame(g.suite, e.session, wire, now).0.value)]);
    assert e.Current().(got := e.Current().got + got.got) == got;
    assert WithLast(e.Epoch(), got) == [got];
    assert WithLast(e.inbound, [got]) == [[got]];
  }

  /** A record accepted twice: one frame is sealed and delivered, the receiver sets UDP mode, and
      the same frame can be delivered to it again. */
  lemma AcceptedTwice(g: Config, w: World, role: EndpointRole, f: Frame, now: int, later: int)
    returns (ws: seq<World>, actions: seq<Action>)
    requires g.Ideal() && Init(g, w) && !Cipher.HasEncryptedFlag(f.flags)
    ensures IsRun(g, ws, actions) && ws[0] == w
    ensures var end := ws[|actions|].At(role.Peer());
            && end.Started() && end.Epoch() == [Segment(OrderedTcp, [Delivery(0, f)])]
            && MayRepeat(g, ModeSet(g, ws[|actions|], role.Peer(), SlidingUdp), role.Peer())
  {
    hide Config.Ideal, Init, Next, MayRepeat, ModeSet, Inv, InInv, OutInv;
    ws, actions := HonestExchange(g, w, role, f, now, later);
    RunKeepsInv(g, ws, actions);
    assert ws[|actions|] in ws;
    StaysStarted(g, ws[|actions|], role.Peer());
    FirstModeChange(g, ws, actions, ws[|actions|], role.Peer(), SlidingUdp);
  }

  lemma StaysStarted(g: Config, w: World, role: EndpointRole)
    requires Inv(g, w)
    ensures w.At(role).Started()
  {}
}
