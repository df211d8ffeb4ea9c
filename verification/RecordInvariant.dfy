/** The invariant of the record protocol, and why every step keeps it: equal epoch counts give
    equal keys, epochs and directions, and only genuine records are ever accepted. */
module RecordInvariant {
  import opened Results
  import opened Bytes
  import opened Frames
  import opened HandshakeTypes
  import opened Sessions
  import opened RecordProtocol
  import Cipher

  // ---- The invariant ----

  function CiphertextBytes(records: seq<Sealed>): nat {
    if records == [] then 0
    else CiphertextBytes(records[..|records| - 1]) + |records[|records| - 1].wire.payload|
  }

  ghost predicate SealedRight(g: Config, role: EndpointRole, e: nat, q: nat, record: Sealed) {
    && q < MAX_U64
    && !Cipher.HasEncryptedFlag(record.plain.flags)
    && var key := g.Chain(role, e);
    && Ok(record.wire) == Cipher.EncryptFrame(g.suite, record.plain, key,
                            Cipher.DeriveNonce(g.suite, g.sessionId, key, TxDirection(role), q),
                            Cipher.BuildAAD(record.plain, e % TWO_32, q))
  }

  /** The sending side: equal epoch counts give equal keys, epochs and directions. */
  ghost predicate OutInv(g: Config, role: EndpointRole, end: End) {
    var s := end.session;
    && end.Started()
    && s.role == role && s.sessionId == g.sessionId
    && s.txKey == g.Chain(role, |end.outbound| - 1)
    && s.txEpoch == (|end.outbound| - 1) % TWO_32
    && s.txSequence == |Last(end.outbound)|
    && s.txBytesInEpoch == CiphertextBytes(Last(end.outbound)) % TWO_64
    && (s.rekeyRequired <==> s.rekeyReason.Some?)
    && forall e, q | 0 <= e < |end.outbound| && 0 <= q < |end.outbound[e]| ::
         SealedRight(g, role, e, q, end.outbound[e][q])
  }

  /** What was accepted in ordered mode in an epoch, whatever came between. */
  function OrderedGot(segments: seq<Segment>): seq<Delivery> {
    if segments == [] then []
    else OrderedGot(segments[..|segments| - 1])
         + if Last(segments).mode == OrderedTcp then Last(segments).got else []
  }

  /** Each delivery of a segment is the record sealed under its number, and no number is twice. */
  ghost predicate SegmentRight(segment: Segment, sealed: seq<Sealed>) {
    && (forall i | 0 <= i < |segment.got| ::
          var d := segment.got[i];
          d.sequence < |sealed| && d.frame == sealed[d.sequence].plain)
    && (forall i, j | 0 <= i < j < |segment.got| :: segment.got[i].sequence != segment.got[j].sequence)
  }

  ghost predicate Counting(got: seq<Delivery>) {
    forall i | 0 <= i < |got| :: got[i].sequence == i
  }

  /** What was accepted in an epoch, against what the peer sealed in it: right in every segment,
      and counting on through the ordered ones. */
  ghost predicate AcceptedRight(segments: seq<Segment>, sealed: seq<Sealed>) {
    (forall k | 0 <= k < |segments| :: SegmentRight(segments[k], sealed)) && Counting(OrderedGot(segments))
  }

  /** The peer's records of an epoch; none if the receiver ratcheted ahead of the sender. */
  function EpochOf(peer: End, e: nat): seq<Sealed> {
    if e < |peer.outbound| then peer.outbound[e] else []
  }

  ghost function Sequences(got: seq<Delivery>): set<u64> {
    set i | 0 <= i < |got| :: got[i].sequence
  }

  ghost predicate InInv(g: Config, role: EndpointRole, end: End, peer: End) {
    var s := end.session;
    && end.Started()
    && s.role == role && s.sessionId == g.sessionId
    && s.rxKey == g.Chain(role.Peer(), |end.inbound| - 1)
    && s.rxEpoch == (|end.inbound| - 1) % TWO_32
    && s.replayMode == end.Current().mode
    && s.rxSequence == |OrderedGot(end.Epoch())|
    && (s.replayMode == SlidingUdp ==> s.marks.Valid() && s.marks.all == Sequences(end.Current().got))
    && forall e | 0 <= e < |end.inbound| :: AcceptedRight(end.inbound[e], EpochOf(peer, e))
  }

  /** How far one endpoint has ratcheted. */
  ghost predicate WithinHorizon(g: Config, end: End) {
    |end.outbound| <= g.horizon + 1 && |end.inbound| <= g.horizon + 1
  }

  ghost predicate Inv(g: Config, w: World) {
    && OutInv(g, Initiator, w.initiator) && InInv(g, Initiator, w.initiator, w.responder)
    && OutInv(g, Responder, w.responder) && InInv(g, Responder, w.responder, w.initiator)
    && WithinHorizon(g, w.initiator) && WithinHorizon(g, w.responder)
  }

  lemma InitInv(g: Config, w: World)
    requires Init(g, w)
    ensures Inv(g, w)
  {
    InitEndInv(g, Initiator, w.initiator, w.responder);
    InitEndInv(g, Responder, w.responder, w.initiator);
  }

  lemma InitEndInv(g: Config, role: EndpointRole, e: End, peer: End)
    requires InitEnd(g, role, e)
    ensures OutInv(g, role, e) && InInv(g, role, e, peer) && WithinHorizon(g, e)
  {
    assert Last(e.outbound) == [] && e.Epoch() == [Segment(OrderedTcp, [])];
    assert OrderedGot(e.Epoch()) == [];
  }

  // ---- What opens is genuine, and what is genuine opens ----

  /** Agreeing with a sealed record in associated data and ciphertext is being that record. */
  lemma MatchesRecord(g: Config, role: EndpointRole, e: nat, q: u64, record: Sealed, f: Frame)
    requires SealedRight(g, role, e, q, record)
    requires Cipher.HasEncryptedFlag(f.flags) && f.payload == record.wire.payload
    requires Cipher.BuildAAD(record.plain, e % TWO_32, q) == Cipher.BuildAAD(f, e % TWO_32, q)
    ensures f == record.wire
  {
    Cipher.AadDetermines(record.plain, f, e % TWO_32, e % TWO_32, q, q);
  }

  /** A record the peer sealed in the receiver's epoch opens under its own number. */
  lemma GenuineOpens(g: Config, role: EndpointRole, end: End, peer: End, q: u64)
    requires g.Ideal() && InInv(g, role, end, peer) && OutInv(g, role.Peer(), peer)
    requires q < |EpochOf(peer, |end.inbound| - 1)|
    ensures var record := EpochOf(peer, |end.inbound| - 1)[q];
            && Cipher.HasEncryptedFlag(record.wire.flags)
            && OpenFrame(g.suite, end.session, record.wire, q) == Ok(record.plain)
  {
    var k := |end.inbound| - 1;
    var record := peer.outbound[k][q];
    assert SealedRight(g, role.Peer(), k, q, record);
    var s := end.session;
    Cipher.DecryptsWhatWasEncrypted(g.suite, record.plain, s.rxKey, RxNonce(g.suite, s, q),
                                    Cipher.BuildAAD(record.plain, s.rxEpoch, q));
  }

  lemma KeyTellsEpoch(g: Config, r: EndpointRole, e: nat, r': EndpointRole, k: nat)
    requires g.KeysDistinct() && e <= g.horizon && k <= g.horizon && g.Chain(r, e) == g.Chain(r', k)
    ensures r == r' && e == k
  {}

  lemma NonceTellsSequence(g: Config, s: Session, r: EndpointRole, i: u64, q: u64)
    requires Cipher.DeriveNonce(g.suite, g.sessionId, s.rxKey, TxDirection(r), i) == RxNonce(g.suite, s, q)
    ensures i == q
  {
    Cipher.NonceDeterminesSequence(g.suite, g.sessionId, s.sessionId, s.rxKey, s.rxKey,
                                   TxDirection(r), RxDirection(s.role), i, q);
  }

  /** Only the peer, in the same epoch and under the same number, sealed with the key and
      nonce the receiver uses. */
  lemma SealedByPeer(g: Config, w: World, role: EndpointRole, q: u64,
                     r: EndpointRole, e: nat, i: nat, aad: Bytes, ciphertext: Bytes)
    requires g.Ideal() && Inv(g, w)
    requires var s := w.At(role).session;
             SealedAs(g, w, r, e, i, s.rxKey, RxNonce(g.suite, s, q), aad, ciphertext)
    ensures r == role.Peer() && e == |w.At(role).inbound| - 1 && i == q
  {
    hide Cipher.BuildAAD, Cipher.DeriveNonce, SealedRight, AcceptedRight;
    NonceTellsSequence(g, w.At(role).session, r, i, q);
    assert e <= g.horizon;
    KeyTellsEpoch(g, r, e, role.Peer(), |w.At(role).inbound| - 1);
  }

  lemma OpenedWasSealed(g: Config, w: World, role: EndpointRole, f: Frame, q: u64)
    requires g.Ideal() && Inv(g, w) && Unforged(g, w, role, f, q)
    requires OpenFrame(g.suite, w.At(role).session, f, q).Ok?
    ensures w.At(role).Started()
    ensures w.At(role).session.rxEpoch == (|w.At(role).inbound| - 1) % TWO_32
    ensures var s := w.At(role).session;
            SealedAs(g, w, role.Peer(), |w.At(role).inbound| - 1, q, s.rxKey, RxNonce(g.suite, s, q),
                     Cipher.BuildAAD(f, s.rxEpoch, q), f.payload)
  {
    hide Cipher.BuildAAD, Cipher.DeriveNonce, OpenFrame, SealedRight, AcceptedRight, Config.Ideal, Config.Chain;
    var s := w.At(role).session;
    var aad := Cipher.BuildAAD(f, s.rxEpoch, q);
    var r, e, i :| SealedAs(g, w, r, e, i, s.rxKey, RxNonce(g.suite, s, q), aad, f.payload);
    SealedByPeer(g, w, role, q, r, e, i, aad, f.payload);
  }

  /** A frame that agrees with a record of the peer's in associated data and ciphertext is
      that record, and opens to what was sealed. */
  lemma AgreesWithRecord(g: Config, role: EndpointRole, end: End, peer: End, f: Frame, q: u64)
    requires g.Ideal() && InInv(g, role, end, peer) && OutInv(g, role.Peer(), peer)
    requires q < |EpochOf(peer, |end.inbound| - 1)| && Cipher.HasEncryptedFlag(f.flags)
    requires var record := EpochOf(peer, |end.inbound| - 1)[q];
             && f.payload == record.wire.payload
             && Cipher.BuildAAD(f, end.session.rxEpoch, q) == Cipher.BuildAAD(record.plain, end.session.rxEpoch, q)
    ensures var record := EpochOf(peer, |end.inbound| - 1)[q];
            f == record.wire && OpenFrame(g.suite, end.session, f, q) == Ok(record.plain)
  {
    var k := |end.inbound| - 1;
    assert SealedRight(g, role.Peer(), k, q, peer.outbound[k][q]);
    MatchesRecord(g, role.Peer(), k, q, peer.outbound[k][q], f);
    GenuineOpens(g, role, end, peer, q);
  }

  /** What opens for an endpoint is, unforged, the very record its peer sealed in the same
      epoch under the same number. */
  lemma OpensOnlyGenuine(g: Config, w: World, role: EndpointRole, f: Frame, q: u64)
    requires g.Ideal() && Inv(g, w) && Unforged(g, w, role, f, q)
    requires OpenFrame(g.suite, w.At(role).session, f, q).Ok?
    ensures var sealed := EpochOf(w.At(role.Peer()), |w.At(role).inbound| - 1);
            && q < |sealed| && f == sealed[q].wire
            && OpenFrame(g.suite, w.At(role).session, f, q) == Ok(sealed[q].plain)
  {
    hide Cipher.BuildAAD, Cipher.DeriveNonce, Config.Ideal, Unforged, OutInv, InInv;
    OpenedWasSealed(g, w, role, f, q);
    assert Cipher.HasEncryptedFlag(f.flags);
    AgreesWithRecord(g, role, w.At(role), w.At(role.Peer()), f, q);
  }

  // ---- Every step keeps the invariant ----

  /** History only grows: every epoch of `before` is a prefix of the same epoch of `after`. */
  ghost predicate Grows(before: End, after: End) {
    |before.outbound| <= |after.outbound|
    && forall e | 0 <= e < |before.outbound| :: before.outbound[e] <= after.outbound[e]
  }

  /** What was accepted stays right when the peer seals or rekeys. */
  lemma InGrows(g: Config, role: EndpointRole, end: End, before: End, after: End)
    requires InInv(g, role, end, before) && Grows(before, after)
    ensures InInv(g, role, end, after)
  {
    forall e | 0 <= e < |end.inbound|
      ensures AcceptedRight(end.inbound[e], EpochOf(after, e))
    {
      assert AcceptedRight(end.inbound[e], EpochOf(before, e));
      assert EpochOf(before, e) <= EpochOf(after, e);
    }
  }

  lemma OutKeeps(g: Config, role: EndpointRole, end: End, end': End)
    requires OutInv(g, role, end) && end'.outbound == end.outbound && end'.Started()
    requires var s, s' := end.session, end'.session;
             && s'.role == s.role && s'.sessionId == s.sessionId && s'.txKey == s.txKey
             && s'.txEpoch == s.txEpoch && s'.txSequence == s.txSequence
             && s'.txBytesInEpoch == s.txBytesInEpoch
             && (s'.rekeyRequired <==> s'.rekeyReason.Some?)
    ensures OutInv(g, role, end')
  {}

  lemma InKeeps(g: Config, role: EndpointRole, end: End, end': End, peer: End)
    requires InInv(g, role, end, peer) && end'.inbound == end.inbound && end'.Started()
    requires var s, s' := end.session, end'.session;
             && s'.role == s.role && s'.sessionId == s.sessionId && s'.rxKey == s.rxKey
             && s'.rxEpoch == s.rxEpoch && s'.rxSequence == s.rxSequence
             && s'.replayMode == s.replayMode && s'.marks == s.marks
    ensures InInv(g, role, end', peer)
  {}

  /** What a successful encryption did, and that a refused one did nothing. */
  lemma EncryptOutcome(c: Cipher.Suite, s: Session, f: Frame, now: int)
    ensures var (r, s') := EncryptFrame(c, s, f, now);
            if r.Err? then s' == s
            else && !Cipher.HasEncryptedFlag(f.flags) && s.txSequence < MAX_U64
                 && r == Cipher.EncryptFrame(c, f, s.txKey, TxNonce(c, s), Cipher.BuildAAD(f, s.txEpoch, s.txSequence))
                 && s' == s.(txSequence := s.txSequence + 1,
                             txBytesInEpoch := (s.txBytesInEpoch + |r.value.payload|) % TWO_64,
                             lastSeen := s'.lastSeen, rekeyRequired := s'.rekeyRequired, rekeyReason := s'.rekeyReason)
                 && ((s.rekeyRequired <==> s.rekeyReason.Some?) ==> (s'.rekeyRequired <==> s'.rekeyReason.Some?))
  {}

  lemma OutEncrypt(g: Config, role: EndpointRole, end: End, f: Frame, now: int)
    requires OutInv(g, role, end)
    ensures OutInv(g, role, StepEnd(g.suite, end, Encrypt(f, now)))
    ensures Grows(end, StepEnd(g.suite, end, Encrypt(f, now)))
  {
    hide Cipher.BuildAAD, Cipher.DeriveNonce, Config.Chain, EncryptFrame, DecryptFrame, DecryptFrameUdp;
    var end' := StepEnd(g.suite, end, Encrypt(f, now));
    var (r, s) := EncryptFrame(g.suite, end.session, f, now);
    EncryptOutcome(g.suite, end.session, f, now);
    if r.Ok? {
      var record := Sealed(f, r.value);
      var k := |end.outbound| - 1;
      assert Last(end'.outbound)[..|Last(end.outbound)|] == Last(end.outbound);
      forall e, q | 0 <= e < |end'.outbound| && 0 <= q < |end'.outbound[e]|
        ensures SealedRight(g, role, e, q, end'.outbound[e][q])
      {
        if e < k || q < |end.outbound[e]| {
          assert end'.outbound[e][q] == end.outbound[e][q];
        }
      }
    }
  }

  lemma OutRekey(g: Config, role: EndpointRole, end: End, now: int)
    requires OutInv(g, role, end)
    ensures OutInv(g, role, StepEnd(g.suite, end, RekeyOut(now)))
    ensures Grows(end, StepEnd(g.suite, end, RekeyOut(now)))
  {
    hide SealedRight, EncryptFrame, DecryptFrame, DecryptFrameUdp, RefreshRekeyTrigger;
    var end' := StepEnd(g.suite, end, RekeyOut(now));
    assert Last(end'.outbound) == [];
    assert g.Chain(role, |end.outbound|)
        == Cipher.RekeyMaterial(g.suite, end.session.txKey, g.sessionId, TxDirection(role));
    forall e, q | 0 <= e < |end'.outbound| && 0 <= q < |end'.outbound[e]|
      ensures SealedRight(g, role, e, q, end'.outbound[e][q])
    {
      assert end'.outbound[e] == end.outbound[e];
    }
  }

  lemma NewEpochRight(mode: ReplayMode, sealed: seq<Sealed>)
    ensures AcceptedRight([Segment(mode, [])], sealed) && OrderedGot([Segment(mode, [])]) == []
  {
    assert [Segment(mode, [])][..0] == [];
  }

  /** A segment of its own for every setting of the mode changes nothing else. */
  lemma NewSegmentRight(segments: seq<Segment>, mode: ReplayMode, sealed: seq<Sealed>)
    requires AcceptedRight(segments, sealed)
    ensures AcceptedRight(segments + [Segment(mode, [])], sealed)
    ensures OrderedGot(segments + [Segment(mode, [])]) == OrderedGot(segments)
  {
    assert (segments + [Segment(mode, [])])[..|segments|] == segments;
  }

  lemma InRekey(g: Config, role: EndpointRole, end: End, peer: End)
    requires InInv(g, role, end, peer)
    ensures InInv(g, role, StepEnd(g.suite, end, RekeyIn), peer)
  {
    hide AcceptedRight, OrderedGot;
    var end' := StepEnd(g.suite, end, RekeyIn);
    NewEpochRight(end.session.replayMode, EpochOf(peer, |end.inbound|));
    assert end'.Epoch() == [Segment(end.session.replayMode, [])];
    assert RxDirection(role) == TxDirection(role.Peer());
    assert g.Chain(role.Peer(), |end.inbound|)
        == Cipher.RekeyMaterial(g.suite, end.session.rxKey, g.sessionId, RxDirection(role));
    assert Sequences([]) == {};
  }

  lemma InSetMode(g: Config, role: EndpointRole, end: End, peer: End, mode: ReplayMode)
    requires InInv(g, role, end, peer)
    ensures InInv(g, role, StepEnd(g.suite, end, SetMode(mode)), peer)
  {
    hide Config.Chain, AcceptedRight, OrderedGot;
    var end' := StepEnd(g.suite, end, SetMode(mode));
    assert AcceptedRight(end.Epoch(), EpochOf(peer, |end.inbound| - 1));
    NewSegmentRight(end.Epoch(), mode, EpochOf(peer, |end.inbound| - 1));
    assert end'.Current() == Segment(mode, []);
    assert Sequences([]) == {};
  }

  lemma SequencesAppend(got: seq<Delivery>, d: Delivery)
    ensures Sequences(got + [d]) == Sequences(got) + {d.sequence}
  {
    var all := got + [d];
    forall q | q in Sequences(got) + {d.sequence}
      ensures q in Sequences(all)
    {
      if q == d.sequence {
        assert all[|got|].sequence == q;
      } else {
        var i :| 0 <= i < |got| && got[i].sequence == q;
        assert all[i].sequence == q;
      }
    }
  }

  /** Accepting into the last segment appends to the ordered deliveries, or leaves them. */
  lemma OrderedGotAppend(segments: seq<Segment>, d: Delivery)
    requires segments != []
    ensures var longer := WithLast(segments, Last(segments).(got := Last(segments).got + [d]));
            OrderedGot(longer) == OrderedGot(segments) + if Last(segments).mode == OrderedTcp then [d] else []
  {
    var longer := WithLast(segments, Last(segments).(got := Last(segments).got + [d]));
    assert longer[..|segments| - 1] == segments[..|segments| - 1];
  }

  /** In ordered mode the last segment is the end of the ordered deliveries. */
  lemma LastOrdered(segments: seq<Segment>, i: nat)
    requires segments != [] && Last(segments).mode == OrderedTcp && i < |Last(segments).got|
    ensures var before := |OrderedGot(segments[..|segments| - 1])|;
            before + i < |OrderedGot(segments)| && OrderedGot(segments)[before + i] == Last(segments).got[i]
  {}

  /** Accepting a genuine record under a new number keeps the epoch right. */
  lemma AcceptKeepsRight(segments: seq<Segment>, sealed: seq<Sealed>, d: Delivery)
    requires segments != [] && AcceptedRight(segments, sealed)
    requires d.sequence < |sealed| && d.frame == sealed[d.sequence].plain
    requires if Last(segments).mode == OrderedTcp then d.sequence == |OrderedGot(segments)|
             else d.sequence !in Sequences(Last(segments).got)
    ensures AcceptedRight(WithLast(segments, Last(segments).(got := Last(segments).got + [d])), sealed)
  {
    hide OrderedGot;
    var current := Last(segments);
    var longer := WithLast(segments, current.(got := current.got + [d]));
    assert SegmentRight(current, sealed);
    OrderedGotAppend(segments, d);
    forall i | 0 <= i < |current.got|
      ensures current.got[i].sequence != d.sequence
    {
      if current.mode == OrderedTcp {
        LastOrdered(segments, i);
      } else {
        assert current.got[i].sequence in Sequences(current.got);
      }
    }
    LongerRight(current, sealed, d);
  }

  lemma LongerRight(segment: Segment, sealed: seq<Sealed>, d: Delivery)
    requires SegmentRight(segment, sealed) && d.sequence < |sealed| && d.frame == sealed[d.sequence].plain
    requires forall i | 0 <= i < |segment.got| :: segment.got[i].sequence != d.sequence
    ensures SegmentRight(segment.(got := segment.got + [d]), sealed)
  {}

  lemma AcceptedNext(g: Config, role: EndpointRole, end: End, peer: End, s: Session, d: Delivery)
    requires InInv(g, role, end, peer)
    requires var sealed := EpochOf(peer, |end.inbound| - 1);
             d.sequence < |sealed| && d.frame == sealed[d.sequence].plain
    requires if end.session.replayMode == OrderedTcp
             then d.sequence == end.session.rxSequence < MAX_U64
                  && s == end.session.(rxSequence := d.sequence + 1, lastSeen := s.lastSeen)
             else end.session.marks.Accepts(d.sequence)
                  && s == end.session.(marks := end.session.marks.Add(d.sequence), lastSeen := s.lastSeen)
    ensures InInv(g, role, Accept(end, s, d), peer)
  {
    hide Config.Chain, AcceptedRight, OrderedGot;
    var k := |end.inbound| - 1;
    assert AcceptedRight(end.inbound[k], EpochOf(peer, k));
    AcceptKeepsRight(end.Epoch(), EpochOf(peer, k), d);
    OrderedGotAppend(end.Epoch(), d);
    SequencesAppend(end.Current().got, d);
    var end' := Accept(end, s, d);
    forall e | 0 <= e < |end'.inbound|
      ensures AcceptedRight(end'.inbound[e], EpochOf(peer, e))
    {
      if e < k {
        assert end'.inbound[e] == end.inbound[e];
      }
    }
  }

  /** What an accepting ordered call did. */
  lemma OrderedOutcome(c: Cipher.Suite, s: Session, f: Frame, now: int)
    ensures var (r, s') := DecryptFrame(c, s, f, now);
            if r.Err? then s' == s
            else && s.replayMode == OrderedTcp && s.rxSequence < MAX_U64
                 && r == OpenFrame(c, s, f, s.rxSequence)
                 && s' == s.(rxSequence := s.rxSequence + 1, lastSeen := s'.lastSeen)
  {}

  /** What an accepting UDP call did. */
  lemma UdpOutcome(c: Cipher.Suite, s: Session, f: Frame, q: u64, now: int)
    ensures var (r, s') := DecryptFrameUdp(c, s, f, q, now);
            if r.Err? then s' == s
            else && s.replayMode == SlidingUdp && s.marks.Accepts(q)
                 && r == OpenFrame(c, s, f, q)
                 && s' == s.(marks := s.marks.Add(q), lastSeen := s'.lastSeen)
  {}

  /** An ordered delivery: the next record of the peer's epoch, and no other. */
  lemma InDeliver(g: Config, w: World, role: EndpointRole, f: Frame, now: int)
    requires g.Ideal() && Inv(g, w) && Unforged(g, w, role, f, w.At(role).session.rxSequence)
    requires w.At(role).Started()
    ensures InInv(g, role, StepEnd(g.suite, w.At(role), Deliver(f, now)), w.At(role.Peer()))
  {
    hide OutInv, InInv, Unforged, Config.Ideal, OpenFrame, DecryptFrame, Accept;
    var end, peer := w.At(role), w.At(role.Peer());
    var (r, s) := DecryptFrame(g.suite, end.session, f, now);
    OrderedOutcome(g.suite, end.session, f, now);
    if r.Ok? {
      OpensOnlyGenuine(g, w, role, f, end.session.rxSequence);
      AcceptedNext(g, role, end, peer, s, Delivery(end.session.rxSequence, r.value));
    } else {
      InKeeps(g, role, end, end.(session := s), peer);
    }
  }

  /** A UDP delivery: some record of the peer's epoch whose number was not accepted yet. */
  lemma InDeliverUdp(g: Config, w: World, role: EndpointRole, f: Frame, q: u64, now: int)
    requires g.Ideal() && Inv(g, w) && Unforged(g, w, role, f, q)
    requires w.At(role).Started()
    ensures InInv(g, role, StepEnd(g.suite, w.At(role), DeliverUdp(f, q, now)), w.At(role.Peer()))
  {
    hide OutInv, InInv, Unforged, Config.Ideal, OpenFrame, DecryptFrameUdp, Accept;
    var end, peer := w.At(role), w.At(role.Peer());
    var (r, s) := DecryptFrameUdp(g.suite, end.session, f, q, now);
    UdpOutcome(g.suite, end.session, f, q, now);
    if r.Ok? {
      OpensOnlyGenuine(g, w, role, f, q);
      AcceptedNext(g, role, end, peer, s, Delivery(q, r.value));
    } else {
      InKeeps(g, role, end, end.(session := s), peer);
    }
  }

  lemma StepKeepsInv(g: Config, w: World, a: Action, w': World)
    requires g.Ideal() && Inv(g, w) && Next(g, w, a, w')
    ensures Inv(g, w')
  {
    hide OutInv, InInv, WithinHorizon, Allowed, Config.Ideal, StepEnd;
    var role, end, peer := a.role, w.At(a.role), w.At(a.role.Peer());
    var end' := StepEnd(g.suite, end, a.event);
    StepKeepsOwn(g, w, a);
    StepKeepsHorizon(g, w, a);
    InGrows(g, role.Peer(), peer, end, end');
  }

  lemma StepKeepsHorizon(g: Config, w: World, a: Action)
    requires w.At(a.role).Started() && Allowed(g, w, a) && WithinHorizon(g, w.At(a.role))
    ensures WithinHorizon(g, StepEnd(g.suite, w.At(a.role), a.event))
  {
    hide Unforged, EncryptFrame, DecryptFrame, DecryptFrameUdp;
  }

  /** What an endpoint does keeps its sending side right, whatever arrives. */
  lemma StepKeepsOut(g: Config, role: EndpointRole, end: End, ev: Event)
    requires OutInv(g, role, end)
    ensures OutInv(g, role, StepEnd(g.suite, end, ev)) && Grows(end, StepEnd(g.suite, end, ev))
  {
    hide SealedRight, StepEnd, Grows;
    match ev
    case Encrypt(f, now) => OutEncrypt(g, role, end, f, now);
    case RekeyOut(now) => OutRekey(g, role, end, now);
    case _ => OthersKeepOut(g, role, end, ev);
  }

  lemma StepKeepsOwn(g: Config, w: World, a: Action)
    requires w.At(a.role).Started() && g.Ideal() && Inv(g, w) && Allowed(g, w, a)
    ensures var end' := StepEnd(g.suite, w.At(a.role), a.event);
            && OutInv(g, a.role, end') && InInv(g, a.role, end', w.At(a.role.Peer()))
            && Grows(w.At(a.role), end')
  {
    hide OutInv, InInv, Unforged, Config.Ideal, StepEnd, Grows, WithinHorizon;
    var role, end, peer := a.role, w.At(a.role), w.At(a.role.Peer());
    StepKeepsOut(g, role, end, a.event);
    match a.event
    case Deliver(f, now) => InDeliver(g, w, role, f, now);
    case DeliverUdp(f, q, now) => InDeliverUdp(g, w, role, f, q, now);
    case RekeyIn => InRekey(g, role, end, peer);
    case SetMode(mode) => InSetMode(g, role, end, peer, mode);
    case _ => SendingKeepsIn(g, role, end, peer, a.event);
  }

  lemma SendingKeepsIn(g: Config, role: EndpointRole, end: End, peer: End, ev: Event)
    requires InInv(g, role, end, peer) && end.Started()
    requires ev.Encrypt? || ev.RekeyOut? || ev.SetPolicy? || ev.MarkManual?
    ensures InInv(g, role, StepEnd(g.suite, end, ev), peer)
  {
    hide InInv;
    InKeeps(g, role, end, StepEnd(g.suite, end, ev), peer);
  }

  /** Receiving and policy events leave the sending side alone. */
  lemma KeepsSending(c: Cipher.Suite, end: End, ev: Event)
    requires end.Started()
    requires !ev.Encrypt? && !ev.RekeyOut?
    ensures var end' := StepEnd(c, end, ev);
            var s, s' := end.session, end'.session;
            && end'.outbound == end.outbound
            && s'.role == s.role && s'.sessionId == s.sessionId && s'.txKey == s.txKey
            && s'.txEpoch == s.txEpoch && s'.txSequence == s.txSequence
            && s'.txBytesInEpoch == s.txBytesInEpoch
            && ((s.rekeyRequired <==> s.rekeyReason.Some?) ==>
                  (s'.rekeyRequired <==> s'.rekeyReason.Some?))
  {
    hide DecryptFrame, DecryptFrameUdp;
    match ev
    case Deliver(f, now) => OrderedOutcome(c, end.session, f, now);
    case DeliverUdp(f, q, now) => UdpOutcome(c, end.session, f, q, now);
    case _ =>
  }

  lemma OthersKeepOut(g: Config, role: EndpointRole, end: End, ev: Event)
    requires OutInv(g, role, end) && end.Started()
    requires !ev.Encrypt? && !ev.RekeyOut?
    ensures OutInv(g, role, StepEnd(g.suite, end, ev)) && Grows(end, StepEnd(g.suite, end, ev))
  {
    hide SealedRight, OpenFrame, Config.Chain, StepEnd;
    KeepsSending(g.suite, end, ev);
    OutKeeps(g, role, end, StepEnd(g.suite, end, ev));
  }

  lemma {:induction false} RunKeepsInv(g: Config, ws: seq<World>, actions: seq<Action>)
    requires g.Ideal() && IsRun(g, ws, actions)
    ensures forall w | w in ws :: Inv(g, w)
  {
    hide Config.Ideal, Inv, Init, Next;
    InitInv(g, ws[0]);
    for i := 0 to |actions|
      invariant forall j | 0 <= j <= i :: Inv(g, ws[j])
    {
      StepKeepsInv(g, ws[i], actions[i], ws[i + 1]);
    }
  }

  /** With nothing excluded, the sending sides stay right: sealing does not depend on what
      arrives, nor on how often keys are changed. */
  lemma {:induction false} OpenRunKeepsOut(g: Config, ws: seq<World>, actions: seq<Action>)
    requires IsOpenRun(g, ws, actions)
    ensures forall w, role | w in ws :: OutInv(g, role, w.At(role))
  {
    hide Init, Steps, OutInv;
    InitInv(g, ws[0]);
    assert forall role :: OutInv(g, role, ws[0].At(role)) by {
      OutOf(g, ws[0]);
    }
    for i := 0 to |actions|
      invariant forall j, role | 0 <= j <= i :: OutInv(g, role, ws[j].At(role))
    {
      OpenStepKeepsOut(g, ws[i], actions[i], ws[i + 1]);
    }
  }

  lemma OutOf(g: Config, w: World)
    requires Inv(g, w)
    ensures forall role :: OutInv(g, role, w.At(role))
  {
    hide OutInv, InInv;
  }

  lemma OpenStepKeepsOut(g: Config, w: World, a: Action, w': World)
    requires (forall role :: OutInv(g, role, w.At(role))) && Steps(g, w, a, w')
    ensures forall role :: OutInv(g, role, w'.At(role))
  {
    hide OutInv, StepEnd;
    StepKeepsOut(g, a.role, w.At(a.role), a.event);
    forall role
      ensures OutInv(g, role, w'.At(role))
    {
      assert role == a.role || role == a.role.Peer();
    }
  }
}
