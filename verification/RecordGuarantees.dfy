/** What the record layer guarantees in every run of the protocol. */
module RecordGuarantees {
  import opened Results
  import opened Bytes
  import opened Frames
  import opened ReplayWindow
  import opened HandshakeTypes
  import opened Sessions
  import opened RecordProtocol
  import opened RecordInvariant
  import Cipher

  /** Ordered delivery: in every epoch, what was accepted in ordered mode, before and after any
      time in UDP mode, is a prefix of what the peer sealed in that epoch, so nothing in it is
      duplicated, reordered or stale. */
  lemma OrderedPrefix(g: Config, ws: seq<World>, actions: seq<Action>, w: World, role: EndpointRole, e: nat)
    requires g.Ideal() && IsRun(g, ws, actions) && w in ws && e < |w.At(role).inbound|
    ensures var got, sealed := OrderedGot(w.At(role).inbound[e]), EpochOf(w.At(role.Peer()), e);
            && |got| <= |sealed|
            && forall i | 0 <= i < |got| :: got[i].sequence == i && got[i].frame == sealed[i].plain
  {
    hide Config.Ideal, OutInv, IsRun, OrderedGot;
    RunKeepsInv(g, ws, actions);
    var segments, sealed := w.At(role).inbound[e], EpochOf(w.At(role.Peer()), e);
    assert AcceptedRight(segments, sealed);
    OrderedGotGenuine(segments, sealed);
    var got := OrderedGot(segments);
    if got != [] {
      assert got[|got| - 1].sequence == |got| - 1;
    }
  }

  lemma {:induction false} OrderedGotGenuine(segments: seq<Segment>, sealed: seq<Sealed>)
    requires forall k | 0 <= k < |segments| :: SegmentRight(segments[k], sealed)
    ensures forall d | d in OrderedGot(segments) :: d.sequence < |sealed| && d.frame == sealed[d.sequence].plain
  {
    if segments != [] {
      OrderedGotGenuine(segments[..|segments| - 1], sealed);
      assert SegmentRight(segments[|segments| - 1], sealed);
    }
  }

  /** Delivery in any mode, however often the mode is set: each accepted frame is the one the
      peer sealed under that number in that epoch, and between two settings of the mode no
      number is accepted twice. */
  lemma AtMostOnce(g: Config, ws: seq<World>, actions: seq<Action>, w: World, role: EndpointRole, e: nat, k: nat)
    requires g.Ideal() && IsRun(g, ws, actions) && w in ws
    requires e < |w.At(role).inbound| && k < |w.At(role).inbound[e]|
    ensures var got, sealed := w.At(role).inbound[e][k].got, EpochOf(w.At(role.Peer()), e);
            && (forall i | 0 <= i < |got| ::
                  got[i].sequence < |sealed| && got[i].frame == sealed[got[i].sequence].plain)
            && (forall i, j | 0 <= i < j < |got| :: got[i].sequence != got[j].sequence)
  {
    hide Config.Ideal, OutInv, IsRun, OrderedGot;
    RunKeepsInv(g, ws, actions);
    assert AcceptedRight(w.At(role).inbound[e], EpochOf(w.At(role.Peer()), e));
    assert SegmentRight(w.At(role).inbound[e][k], EpochOf(w.At(role.Peer()), e));
  }

  /** The key and nonce of frame number `q` of an epoch. */
  ghost function KeyAndNonce(g: Config, role: EndpointRole, e: nat, q: u64): (Bytes32, Bytes) {
    (g.Chain(role, e), Cipher.DeriveNonce(g.suite, g.sessionId, g.Chain(role, e), TxDirection(role), q))
  }

  /** Nonce uniqueness: no two frames sealed in a run, by either endpoint and in any epoch up
      to the horizon, share key and nonce; and the wire frame is what that key and nonce
      produced. Nothing is assumed of what arrives, forgeries included. */
  lemma NoncesAreUnique(g: Config, ws: seq<World>, actions: seq<Action>, w: World,
                        r: EndpointRole, e: nat, q: nat, r': EndpointRole, e': nat, q': nat)
    requires g.KeysDistinct() && IsOpenRun(g, ws, actions) && w in ws
    requires IsSealed(w, r, e, q) && IsSealed(w, r', e', q') && e <= g.horizon && e' <= g.horizon
    ensures q < MAX_U64 && q' < MAX_U64
    ensures KeyAndNonce(g, r, e, q) == KeyAndNonce(g, r', e', q') ==> r == r' && e == e' && q == q'
    ensures var record, kn := w.At(r).outbound[e][q], KeyAndNonce(g, r, e, q);
            Ok(record.wire) == Cipher.EncryptFrame(g.suite, record.plain, kn.0, kn.1,
                                                   Cipher.BuildAAD(record.plain, e % TWO_32, q))
  {
    hide IsOpenRun, Cipher.DeriveNonce, Cipher.BuildAAD, Cipher.EncryptFrame;
    OpenRunKeepsOut(g, ws, actions);
    assert SealedRight(g, r, e, q, w.At(r).outbound[e][q]);
    assert SealedRight(g, r', e', q', w.At(r').outbound[e'][q']);
    if KeyAndNonce(g, r, e, q) == KeyAndNonce(g, r', e', q') {
      KeyTellsEpoch(g, r, e, r', e');
      Cipher.NonceDeterminesSequence(g.suite, g.sessionId, g.sessionId, g.Chain(r, e), g.Chain(r', e'),
                                     TxDirection(r), TxDirection(r'), q, q');
    }
  }

  ghost predicate IsSealed(w: World, r: EndpointRole, e: nat, q: nat) {
    e < |w.At(r).outbound| && q < |w.At(r).outbound[e]|
  }

  /** Ordered mode never rejects the next record of the epoch. */
  lemma NextInOrderIsAccepted(g: Config, ws: seq<World>, actions: seq<Action>, w: World,
                              role: EndpointRole, now: int)
    requires g.Ideal() && IsRun(g, ws, actions) && w in ws
    requires w.At(role).Started() && w.At(role).Current().mode == OrderedTcp
    requires |OrderedGot(w.At(role).Epoch())| < |EpochOf(w.At(role.Peer()), |w.At(role).inbound| - 1)|
    ensures var record := EpochOf(w.At(role.Peer()), |w.At(role).inbound| - 1)[|OrderedGot(w.At(role).Epoch())|];
            DecryptFrame(g.suite, w.At(role).session, record.wire, now).0 == Ok(record.plain)
  {
    hide IsRun, DecryptFrame, OpenFrame, SealedRight, AcceptedRight, Config.Ideal, Config.Chain, OrderedGot;
    RunKeepsInv(g, ws, actions);
    NextOpens(g, role, w.At(role), w.At(role.Peer()), now);
  }

  lemma NextOpens(g: Config, role: EndpointRole, end: End, peer: End, now: int)
    requires g.Ideal() && InInv(g, role, end, peer) && OutInv(g, role.Peer(), peer)
    requires end.Current().mode == OrderedTcp
    requires end.session.rxSequence < |EpochOf(peer, |end.inbound| - 1)|
    ensures var record := EpochOf(peer, |end.inbound| - 1)[end.session.rxSequence];
            DecryptFrame(g.suite, end.session, record.wire, now).0 == Ok(record.plain)
  {
    hide OpenFrame, Cipher.EncryptFrame, AcceptedRight, Config.Ideal, Config.Chain, OrderedGot;
    var k, q := |end.inbound| - 1, end.session.rxSequence;
    assert SealedRight(g, role.Peer(), k, q, peer.outbound[k][q]);
    GenuineOpens(g, role, end, peer, q);
  }

  /** Some accepted number lies `n` or more above `q`; or all lie `n` or more below it. */
  ghost predicate SomeAbove(got: seq<Delivery>, q: u64, n: nat) {
    exists i | 0 <= i < |got| :: got[i].sequence - q >= n
  }

  ghost predicate AllBelow(got: seq<Delivery>, q: u64, n: nat) {
    got != [] && forall i | 0 <= i < |got| :: q - got[i].sequence >= n
  }

  /** What UDP mode does with a genuine record of the epoch, in every case: it is accepted
      unless its number was accepted or is 1024 or more below an accepted one, and unless a gap
      reaches 2^63, which the signed distance of the source turns into a fault. */
  lemma UdpAcceptsExactly(g: Config, ws: seq<World>, actions: seq<Action>, w: World,
                          role: EndpointRole, q: u64, now: int)
    requires g.Ideal() && IsRun(g, ws, actions) && w in ws
    requires w.At(role).Started() && w.At(role).Current().mode == SlidingUdp
    requires q < |EpochOf(w.At(role.Peer()), |w.At(role).inbound| - 1)|
    ensures var got := w.At(role).Current().got;
            var record := EpochOf(w.At(role.Peer()), |w.At(role).inbound| - 1)[q];
            DecryptFrameUdp(g.suite, w.At(role).session, record.wire, q, now).0
              == if SomeAbove(got, q, TWO_63) then Err(PANIC)
                 else if SomeAbove(got, q, WINDOW_SIZE) then Err(OUTSIDE_WINDOW)
                 else if exists i | 0 <= i < |got| :: got[i].sequence == q then Err(DUPLICATE)
                 else if AllBelow(got, q, TWO_63) then Err(PANIC)
                 else Ok(record.plain)
  {
    hide IsRun, OpenFrame, SealedRight, AcceptedRight, Config.Ideal, Config.Chain, DecryptFrameUdp,
         SomeAbove, AllBelow, OutInv;
    RunKeepsInv(g, ws, actions);
    var end, peer := w.At(role), w.At(role.Peer());
    GenuineOpens(g, role, end, peer, q);
    UdpDecides(g.suite, end.session, EpochOf(peer, |end.inbound| - 1)[q].wire, q, now, end.Current().got);
  }

  /** The outcome for a frame that would open, by the accepted numbers. */
  lemma UdpDecides(c: Cipher.Suite, s: Session, f: Frame, q: u64, now: int, got: seq<Delivery>)
    requires s.replayMode == SlidingUdp && s.marks.Valid() && s.marks.all == Sequences(got)
    requires Cipher.HasEncryptedFlag(f.flags) && OpenFrame(c, s, f, q).Ok?
    ensures DecryptFrameUdp(c, s, f, q, now).0
              == if SomeAbove(got, q, TWO_63) then Err(PANIC)
                 else if SomeAbove(got, q, WINDOW_SIZE) then Err(OUTSIDE_WINDOW)
                 else if exists i | 0 <= i < |got| :: got[i].sequence == q then Err(DUPLICATE)
                 else if AllBelow(got, q, TWO_63) then Err(PANIC)
                 else OpenFrame(c, s, f, q)
  {
    hide OpenFrame, SomeAbove, AllBelow;
    MarksDecide(s.marks, got, q, TWO_63);
    MarksDecide(s.marks, got, q, WINDOW_SIZE);
  }

  /** Every number marked in the window was sealed by the peer in this epoch. */
  lemma MarksBelow(g: Config, role: EndpointRole, end: End, peer: End)
    requires InInv(g, role, end, peer) && end.session.replayMode == SlidingUdp
    ensures forall q | q in end.session.marks.all :: q < |EpochOf(peer, |end.inbound| - 1)|
    ensures end.session.marks.all != {} ==> end.session.marks.highest < |EpochOf(peer, |end.inbound| - 1)|
  {
    hide OrderedGot;
    var segments, sealed := end.inbound[|end.inbound| - 1], EpochOf(peer, |end.inbound| - 1);
    assert AcceptedRight(segments, sealed);
    assert SegmentRight(segments[|segments| - 1], sealed);
  }

  /** The window's tests on its marks, as tests on the accepted numbers. */
  lemma MarksDecide(m: Marks, got: seq<Delivery>, q: u64, n: nat)
    requires m.Valid() && m.all == Sequences(got) && n > 0
    ensures m.all != {} && m.highest - q >= n <==> SomeAbove(got, q, n)
    ensures m.all != {} && q - m.highest >= n <==> AllBelow(got, q, n)
    ensures q in m.all <==> exists i | 0 <= i < |got| :: got[i].sequence == q
  {
    assert forall i | 0 <= i < |got| :: got[i].sequence in m.all;
    if got != [] {
      assert got[0].sequence in m.all;
      var i :| 0 <= i < |got| && got[i].sequence == m.highest;
    }
  }

  /** The window never faults in an epoch in which the peer sealed at most 2^63 records,
      whatever unforged frame and whatever claimed number arrive. */
  lemma UdpNeverPanics(g: Config, ws: seq<World>, actions: seq<Action>, w: World,
                       role: EndpointRole, f: Frame, q: u64, now: int)
    requires g.Ideal() && IsRun(g, ws, actions) && w in ws && Unforged(g, w, role, f, q)
    requires w.At(role).Started()
    requires |EpochOf(w.At(role.Peer()), |w.At(role).inbound| - 1)| <= TWO_63
    ensures DecryptFrameUdp(g.suite, w.At(role).session, f, q, now).0 != Err(PANIC)
  {
    hide IsRun, OpenFrame, Unforged, Cipher.EncryptFrame, Config.Ideal, Config.Chain, OutInv;
    RunKeepsInv(g, ws, actions);
    var end, peer := w.At(role), w.At(role.Peer());
    if end.session.replayMode == SlidingUdp {
      MarksBelow(g, role, end, peer);
      if OpenFrame(g.suite, end.session, f, q).Ok? {
        OpensOnlyGenuine(g, w, role, f, q);
      }
    }
  }

  /** The guarantees of one state together, for both endpoints and all epochs. */
  ghost predicate Protected(g: Config, w: World) {
    && (forall role, e: nat | e < |w.At(role).inbound| ::
          DeliveredRight(w.At(role).inbound[e], EpochOf(w.At(role.Peer()), e)))
    && (forall r, e: nat, q: nat, r', e': nat, q': nat | IsSealed(w, r, e, q) && IsSealed(w, r', e', q') ::
          q < MAX_U64 && q' < MAX_U64
          && (KeyAndNonce(g, r, e, q) == KeyAndNonce(g, r', e', q') ==> r == r' && e == e' && q == q'))
  }

  /** Genuine and at most once in every segment, and a prefix in ordered mode. */
  ghost predicate DeliveredRight(segments: seq<Segment>, sealed: seq<Sealed>) {
    && (forall k | 0 <= k < |segments| :: SegmentRight(segments[k], sealed))
    && var got := OrderedGot(segments);
    && |got| <= |sealed|
    && forall i | 0 <= i < |got| :: got[i].sequence == i && got[i].frame == sealed[i].plain
  }

  lemma DeliveriesAreRight(g: Config, ws: seq<World>, actions: seq<Action>, w: World, role: EndpointRole, e: nat)
    requires g.Ideal() && IsRun(g, ws, actions) && w in ws && e < |w.At(role).inbound|
    ensures DeliveredRight(w.At(role).inbound[e], EpochOf(w.At(role.Peer()), e))
  {
    hide Config.Ideal, IsRun, OrderedGot;
    OrderedPrefix(g, ws, actions, w, role, e);
    forall k | 0 <= k < |w.At(role).inbound[e]|
      ensures SegmentRight(w.At(role).inbound[e][k], EpochOf(w.At(role.Peer()), e))
    {
      AtMostOnce(g, ws, actions, w, role, e, k);
    }
  }

  lemma RunsAreProtected(g: Config, ws: seq<World>, actions: seq<Action>, w: World)
    requires g.Ideal() && IsRun(g, ws, actions) && w in ws
    ensures Protected(g, w)
  {
    hide Config.Ideal, IsRun, IsOpenRun, KeyAndNonce, DeliveredRight, OutInv, InInv;
    RunKeepsInv(g, ws, actions);
    RunIsOpen(g, ws, actions);
    IdealKeys(g);
    forall role, e: nat | e < |w.At(role).inbound|
      ensures DeliveredRight(w.At(role).inbound[e], EpochOf(w.At(role.Peer()), e))
    {
      DeliveriesAreRight(g, ws, actions, w, role, e);
    }
    forall r, e: nat, q: nat, r', e': nat, q': nat | IsSealed(w, r, e, q) && IsSealed(w, r', e', q')
      ensures q < MAX_U64 && q' < MAX_U64
      ensures KeyAndNonce(g, r, e, q) == KeyAndNonce(g, r', e', q') ==> r == r' && e == e' && q == q'
    {
      NoncesAreUnique(g, ws, actions, w, r, e, q, r', e', q');
    }
  }

  lemma IdealKeys(g: Config)
    requires g.Ideal()
    ensures g.KeysDistinct()
  {}

  lemma RunIsOpen(g: Config, ws: seq<World>, actions: seq<Action>)
    requires IsRun(g, ws, actions)
    ensures IsOpenRun(g, ws, actions)
  {
    hide Init, Steps, Allowed;
    assert forall i | 0 <= i < |actions| :: Next(g, ws[i], actions[i], ws[i + 1]);
  }

  /** The rekey trigger: a reason is kept exactly while a rekey is required, the byte count is
      that of the ciphertexts of the epoch, reaching the limit in a successful encryption
      requires a rekey, and nothing but an outbound rekey takes the requirement back. Nothing is
      assumed of keys, of the cipher or of what arrives. */
  lemma RekeyTrigger(g: Config, ws: seq<World>, actions: seq<Action>, i: nat)
    requires IsOpenRun(g, ws, actions) && i < |actions|
    ensures var role := actions[i].role;
            var e, e' := ws[i].At(role), ws[i + 1].At(role);
            && e'.outbound != []
            && (e'.session.rekeyRequired <==> e'.session.rekeyReason.Some?)
            && (CiphertextBytes(Last(e'.outbound)) < TWO_64 ==>
                  e'.session.txBytesInEpoch == CiphertextBytes(Last(e'.outbound)))
            && (actions[i].event.Encrypt? && e'.outbound != e.outbound ==>
                  e'.session.txBytesInEpoch >= e'.session.rekeyMaxBytes ==> e'.session.rekeyRequired)
            && (e.session.rekeyRequired && !e'.session.rekeyRequired ==> actions[i].event.RekeyOut?)
  {
    hide Init, SealedRight, StepEnd;
    OpenRunKeepsOut(g, ws, actions);
    assert Steps(g, ws[i], actions[i], ws[i + 1]);
    assert OutInv(g, actions[i].role, ws[i + 1].At(actions[i].role));
    RekeyTriggerStep(g.suite, ws[i].At(actions[i].role), actions[i].event);
  }

  lemma RekeyTriggerStep(c: Cipher.Suite, e: End, ev: Event)
    requires e.Started()
    ensures var e' := StepEnd(c, e, ev);
            && (ev.Encrypt? && e'.outbound != e.outbound ==>
                  e'.session.txBytesInEpoch >= e'.session.rekeyMaxBytes ==> e'.session.rekeyRequired)
            && (e.session.rekeyRequired && !e'.session.rekeyRequired ==> ev.RekeyOut?)
  {
    hide DecryptFrame, DecryptFrameUdp;
    match ev
    case Deliver(f, now) => OrderedOutcome(c, e.session, f, now);
    case DeliverUdp(f, q, now) => UdpOutcome(c, e.session, f, q, now);
    case _ =>
  }
}
