/** A byte stream in the network's hands: whatever it carries, the reader gets a prefix of what
    was sent, as long as nothing opens that the sender did not seal. */
module StreamAuthenticity {
  import opened Results
  import opened Bytes
  import opened Frames
  import opened Sessions
  import opened Streams
  import Cipher

  /** The sealed form of every frame sent, in order: what is on the wire, without heartbeats. */
  function SealedFrames(c: Cipher.Suite, s: Session, items: seq<Item>): seq<Frame>
    decreases |items|
  {
    if items == [] then []
    else (if items[0].Send? then WireOf(c, s, items[0]) else [])
         + SealedFrames(c, AfterItem(c, s, items[0]), items[1..])
  }

  /** The `k`-th frame sent was sealed under the `k`-th number from the sender's counter on. */
  ghost predicate SealedInOrder(c: Cipher.Suite, s: Session, sent: seq<Frame>, wire: seq<Frame>) {
    && |wire| == |sent| && s.txSequence + |sent| <= MAX_U64
    && forall k | 0 <= k < |sent| ::
         && !Cipher.HasEncryptedFlag(sent[k].flags)
         && Ok(wire[k]) == Cipher.EncryptFrame(c, sent[k], s.txKey, NonceOf(c, s, k), AadOf(s, sent[k], k))
  }

  function NonceOf(c: Cipher.Suite, s: Session, k: nat): Bytes
    requires s.txSequence + k <= MAX_U64
  {
    Cipher.DeriveNonce(c, s.sessionId, s.txKey, TxDirection(s.role), s.txSequence + k)
  }

  function AadOf(s: Session, f: Frame, k: nat): Bytes
    requires s.txSequence + k <= MAX_U64
  {
    Cipher.BuildAAD(f, s.txEpoch, s.txSequence + k)
  }

  lemma {:induction false} SealsInOrder(c: Cipher.Suite, s: Session, items: seq<Item>)
    ensures SealedInOrder(c, s, Sent(c, s, items), SealedFrames(c, s, items))
    decreases |items|
  {
    hide EncryptFrame, SealedInOrder, Cipher.EncryptFrame;
    if items == [] {
      NoneSealed(c, s);
    } else {
      var s' := AfterItem(c, s, items[0]);
      SealsInOrder(c, s', items[1..]);
      if items[0].Beat? {
        assert Sent(c, s, items) == Sent(c, s, items[1..]);
        assert SealedFrames(c, s, items) == SealedFrames(c, s, items[1..]);
      } else if EncryptFrame(c, s, items[0].f, items[0].now).0.Err? {
        RefusalKeeps(c, s, items[0].f, items[0].now);
        assert Sent(c, s, items) == Sent(c, s, items[1..]);
        assert SealedFrames(c, s, items) == SealedFrames(c, s, items[1..]);
      } else {
        SealsOne(c, s, items[0].f, items[0].now);
        SealedFirst(c, s, s', items[0].f, EncryptFrame(c, s, items[0].f, items[0].now).0.value,
                    Sent(c, s', items[1..]), SealedFrames(c, s', items[1..]));
      }
    }
  }

  lemma NoneSealed(c: Cipher.Suite, s: Session)
    ensures SealedInOrder(c, s, [], [])
  {}

  /** What a successful encryption did. */
  lemma SealsOne(c: Cipher.Suite, s: Session, f: Frame, now: int)
    requires EncryptFrame(c, s, f, now).0.Ok?
    ensures var (r, s') := EncryptFrame(c, s, f, now);
            && !Cipher.HasEncryptedFlag(f.flags) && s.txSequence < MAX_U64
            && r == Cipher.EncryptFrame(c, f, s.txKey, NonceOf(c, s, 0), AadOf(s, f, 0))
            && Continues(s, s')
  {}

  /** `s'` is the sender after one more record of the same epoch. */
  ghost predicate Continues(s: Session, s': Session) {
    && s'.txSequence == s.txSequence + 1 && s'.txKey == s.txKey && s'.txEpoch == s.txEpoch
    && s'.sessionId == s.sessionId && s'.role == s.role
  }

  lemma SealedFirst(c: Cipher.Suite, s: Session, s': Session, f: Frame, enc: Frame, sent: seq<Frame>, wire: seq<Frame>)
    requires Continues(s, s') && !Cipher.HasEncryptedFlag(f.flags) && s.txSequence < MAX_U64
    requires Ok(enc) == Cipher.EncryptFrame(c, f, s.txKey, NonceOf(c, s, 0), AadOf(s, f, 0))
    requires SealedInOrder(c, s', sent, wire)
    ensures SealedInOrder(c, s, [f] + sent, [enc] + wire)
  {
    hide Cipher.EncryptFrame, Cipher.DeriveNonce, Cipher.BuildAAD;
    forall k | 0 < k <= |sent|
      ensures NonceOf(c, s, k) == NonceOf(c, s', k - 1)
      ensures AadOf(s, sent[k - 1], k) == AadOf(s', sent[k - 1], k - 1)
    {}
  }

  /** The receiver uses the sender's key, direction and epoch. */
  ghost predicate Keyed(s: Session, r: Session) {
    && r.role == s.role.Peer() && r.sessionId == s.sessionId
    && r.rxKey == s.txKey && r.rxEpoch == s.txEpoch && r.replayMode == OrderedTcp
  }

  /** The sender sealed this ciphertext with the nonce and associated data that the receiver
      uses for number `q`. Their keys agree already. */
  ghost predicate WasSealed(c: Cipher.Suite, s: Session, sent: seq<Frame>, wire: seq<Frame>,
                            r: Session, f: Frame, q: u64) {
    exists k | 0 <= k < |sent| && k < |wire| && s.txSequence + k <= MAX_U64 ::
      && RxNonce(c, r, q) == NonceOf(c, s, k)
      && Cipher.BuildAAD(f, r.rxEpoch, q) == AadOf(s, sent[k], k)
      && f.payload == wire[k].payload
  }

  /** What the reader accepts was sealed: of the frames it comes to, each opens, under the
      number in force there, only if the sender sealed it. Numbers the reader does not try and
      frames after the first it refuses do not matter. */
  ghost predicate Unforged(c: Cipher.Suite, s: Session, sent: seq<Frame>, wire: seq<Frame>,
                           r: Session, stream: Bytes, clock: nat -> int, touches: bool)
    decreases |stream|
  {
    match ReadFrame(stream)
    case Err(_) => true
    case Ok((f, rest)) =>
      var now := clock(|rest|);
      if f.msgType == MSG_HEARTBEAT then
        Unforged(c, s, sent, wire, if touches then r.(lastSeen := now) else r, rest, clock, touches)
      else
        var (d, r') := DecryptFrame(c, r, f, now);
        d.Ok? ==> WasSealed(c, s, sent, wire, r, f, r.rxSequence)
                  && Unforged(c, s, sent, wire, r', rest, clock, touches)
  }

  /** A frame that opens under the number of the `k`-th record opens to the `k`-th frame sent. */
  lemma OpensNext(c: Cipher.Suite, s: Session, sent: seq<Frame>, wire: seq<Frame>, r: Session, f: Frame, k: nat)
    requires c.Sound() && Keyed(s, r) && SealedInOrder(c, s, sent, wire)
    requires s.txSequence + k <= MAX_U64 && Cipher.HasEncryptedFlag(f.flags)
    requires WasSealed(c, s, sent, wire, r, f, s.txSequence + k)
    ensures k < |sent| && OpenFrame(c, r, f, s.txSequence + k) == Ok(sent[k])
  {
    hide Cipher.DeriveNonce, Cipher.BuildAAD;
    var q := s.txSequence + k;
    var j :| 0 <= j < |sent| && RxNonce(c, r, q) == NonceOf(c, s, j)
             && Cipher.BuildAAD(f, r.rxEpoch, q) == AadOf(s, sent[j], j) && f.payload == wire[j].payload;
    Cipher.NonceDeterminesSequence(c, s.sessionId, r.sessionId, s.txKey, r.rxKey,
                                   TxDirection(s.role), RxDirection(r.role), s.txSequence + j, q);
    Cipher.AadDetermines(sent[k], f, s.txEpoch, r.rxEpoch, q, q);
    Cipher.DecryptsWhatWasEncrypted(c, sent[k], s.txKey, NonceOf(c, s, k), AadOf(s, sent[k], k));
  }

  /** Reading all of a stream, by the first frame on it. */
  lemma ReadAllStep(c: Cipher.Suite, r: Session, stream: Bytes, clock: nat -> int, touches: bool)
    ensures var fs := ReadAll(c, r, stream, clock, touches).0;
            match ReadFrame(stream)
            case Err(_) => fs == []
            case Ok((f, rest)) =>
              var now := clock(|rest|);
              if f.msgType == MSG_HEARTBEAT then
                fs == ReadAll(c, if touches then r.(lastSeen := now) else r, rest, clock, touches).0
              else
                var (d, r') := DecryptFrame(c, r, f, now);
                fs == if d.Err? then [] else [d.value] + ReadAll(c, r', rest, clock, touches).0
  {
    hide DecryptFrame, ReadFrame;
  }

  /** The reader, having accepted the first `k` frames, goes on accepting in order. */
  lemma {:induction false} ReadsOn(c: Cipher.Suite, s: Session, sent: seq<Frame>, wire: seq<Frame>, r: Session,
                                   stream: Bytes, k: nat, clock: nat -> int, touches: bool)
    requires c.Sound() && SealedInOrder(c, s, sent, wire)
    requires Keyed(s, r) && Unforged(c, s, sent, wire, r, stream, clock, touches)
    requires k <= |sent| && r.rxSequence == s.txSequence + k
    ensures var fs := ReadAll(c, r, stream, clock, touches).0;
            k + |fs| <= |sent| && fs == sent[k..k + |fs|]
    decreases |stream|
  {
    hide Cipher.Suite.Sound, SealedInOrder, ReadAll, ReadFrame, DecryptFrame, WasSealed;
    ReadAllStep(c, r, stream, clock, touches);
    match ReadFrame(stream)
    case Err(_) =>
    case Ok((raw, rest)) =>
      var now := clock(|rest|);
      if raw.msgType == MSG_HEARTBEAT {
        ReadsOn(c, s, sent, wire, if touches then r.(lastSeen := now) else r, rest, k, clock, touches);
      } else if DecryptFrame(c, r, raw, now).0.Ok? {
        AcceptsNext(c, s, sent, wire, r, raw, k, now);
        ReadsOn(c, s, sent, wire, DecryptFrame(c, r, raw, now).1, rest, k + 1, clock, touches);
      }
  }

  lemma AcceptsNext(c: Cipher.Suite, s: Session, sent: seq<Frame>, wire: seq<Frame>, r: Session,
                    f: Frame, k: nat, now: int)
    requires c.Sound() && SealedInOrder(c, s, sent, wire) && Keyed(s, r)
    requires k <= |sent| && r.rxSequence == s.txSequence + k
    requires DecryptFrame(c, r, f, now).0.Ok? && WasSealed(c, s, sent, wire, r, f, r.rxSequence)
    ensures var (d, r') := DecryptFrame(c, r, f, now);
            && k < |sent| && d == Ok(sent[k])
            && r' == r.(lastSeen := now, rxSequence := s.txSequence + k + 1)
  {
    hide Cipher.Suite.Sound, SealedInOrder, OpenFrame, WasSealed;
    OpensNext(c, s, sent, wire, r, f, k);
  }

  /** Whatever bytes arrive, the frames that are read are a prefix of the frames that were sent:
      none altered, none twice, none out of order, none left out before another. */
  lemma ReadsPrefix(c: Cipher.Suite, s: Session, items: seq<Item>, r: Session, stream: Bytes,
                    clock: nat -> int, touches: bool)
    requires c.Sound() && Mirrored(s, r)
    requires Unforged(c, s, Sent(c, s, items), SealedFrames(c, s, items), r, stream, clock, touches)
    ensures ReadAll(c, r, stream, clock, touches).0 <= Sent(c, s, items)
  {
    hide Cipher.Suite.Sound, Unforged, ReadAll, Sent, SealedInOrder;
    SealsInOrder(c, s, items);
    ReadsOn(c, s, Sent(c, s, items), SealedFrames(c, s, items), r, stream, 0, clock, touches);
  }

  // ---- What is asked for does occur ----

  /** An undisturbed stream that can be delivered is unforged, under any sound cipher. */
  lemma UndisturbedIsUnforged(c: Cipher.Suite, s: Session, r: Session, items: seq<Item>,
                              clock: nat -> int, touches: bool)
    requires c.Sound() && Mirrored(s, r)
    requires NoneIsHeartbeat(Sent(c, s, items)) && CiphertextsFit(Sent(c, s, items))
    ensures Unforged(c, s, Sent(c, s, items), SealedFrames(c, s, items), r,
                     EncodeFrames(Wire(c, s, items)), clock, touches)
  {
    hide Cipher.Suite.Sound, Unforged, Sent, SealedFrames, Wire, SealedInOrder, Mirrored;
    SealsInOrder(c, s, items);
    var sent, wire := Sent(c, s, items), SealedFrames(c, s, items);
    assert sent[0..] == sent && wire[0..] == wire;
    UnforgedFrom(c, s, sent, wire, 0, s, r, items, clock, touches);
  }

  /** The sender after `k` records: what it sends from there on is the rest of the records. */
  ghost predicate SendsRest(c: Cipher.Suite, first: Session, sent: seq<Frame>, wire: seq<Frame>, k: nat,
                            s: Session, items: seq<Item>) {
    && SealedInOrder(c, first, sent, wire) && k <= |sent|
    && s.txSequence == first.txSequence + k && s.txKey == first.txKey && s.txEpoch == first.txEpoch
    && s.sessionId == first.sessionId && s.role == first.role
    && sent[k..] == Sent(c, s, items) && wire[k..] == SealedFrames(c, s, items)
  }

  /** Sending the first item leaves the rest to be sent. */
  lemma SendsNext(c: Cipher.Suite, first: Session, sent: seq<Frame>, wire: seq<Frame>, k: nat,
                  s: Session, items: seq<Item>)
    requires SendsRest(c, first, sent, wire, k, s, items) && items != []
    ensures var s' := AfterItem(c, s, items[0]);
            if SentOf(c, s, items[0]) == [] then SendsRest(c, first, sent, wire, k, s', items[1..])
            else && items[0].Send? && EncryptFrame(c, s, items[0].f, items[0].now).0.Ok?
                 && k < |sent| && k < |wire| && sent[k] == items[0].f && sent[k] in Sent(c, s, items)
                 && wire[k] == EncryptFrame(c, s, items[0].f, items[0].now).0.value
                 && SendsRest(c, first, sent, wire, k + 1, s', items[1..])
  {
    hide SealedInOrder, EncryptFrame;
    var item, s' := items[0], AfterItem(c, s, items[0]);
    if item.Send? && EncryptFrame(c, s, item.f, item.now).0.Ok? {
      SealsOne(c, s, item.f, item.now);
      assert sent[k..] == [item.f] + Sent(c, s', items[1..]);
      assert |wire| == |sent| by {
        SameLength(c, first, sent, wire);
      }
      assert wire[k..] == [EncryptFrame(c, s, item.f, item.now).0.value] + SealedFrames(c, s', items[1..]);
      assert sent[k] == sent[k..][0] && wire[k] == wire[k..][0];
      assert sent[k + 1..] == sent[k..][1..] && wire[k + 1..] == wire[k..][1..];
    } else if item.Send? {
      RefusalKeeps(c, s, item.f, item.now);
    }
  }

  lemma SameLength(c: Cipher.Suite, s: Session, sent: seq<Frame>, wire: seq<Frame>)
    requires SealedInOrder(c, s, sent, wire)
    ensures |wire| == |sent|
  {}

  /** A stream that starts with a frame whose reading is unforged, and goes on unforged. */
  lemma UnforgedFirst(c: Cipher.Suite, s: Session, sent: seq<Frame>, wire: seq<Frame>, r: Session,
                      f: Frame, rest: Bytes, clock: nat -> int, touches: bool)
    requires |f.payload| < TWO_32
    requires var now := clock(|rest|);
             if f.msgType == MSG_HEARTBEAT then
               Unforged(c, s, sent, wire, if touches then r.(lastSeen := now) else r, rest, clock, touches)
             else
               DecryptFrame(c, r, f, now).0.Ok? ==>
                 WasSealed(c, s, sent, wire, r, f, r.rxSequence)
                 && Unforged(c, s, sent, wire, DecryptFrame(c, r, f, now).1, rest, clock, touches)
    ensures Unforged(c, s, sent, wire, r, EncodeFrame(f) + rest, clock, touches)
  {
    hide DecryptFrame, ReadFrame, EncodeFrame, WasSealed;
    ReadFrameOf(f, rest);
  }

  lemma {:induction false} UnforgedFrom(c: Cipher.Suite, first: Session, sent: seq<Frame>, wire: seq<Frame>, k: nat,
                                        s: Session, r: Session, items: seq<Item>, clock: nat -> int, touches: bool)
    requires c.Sound() && SendsRest(c, first, sent, wire, k, s, items) && Mirrored(s, r)
    requires NoneIsHeartbeat(Sent(c, s, items)) && CiphertextsFit(Sent(c, s, items))
    ensures Unforged(c, first, sent, wire, r, EncodeFrames(Wire(c, s, items)), clock, touches)
    decreases |items|
  {
    hide Cipher.Suite.Sound, SealedInOrder, EncryptFrame, DecryptFrame, EncodeFrame, WasSealed, ReadFrame,
         SendsRest, Unforged;
    if items == [] {
      EmptyStream(c, first, sent, wire, r, clock, touches);
    } else {
      var item, s' := items[0], AfterItem(c, s, items[0]);
      var rest := EncodeFrames(Wire(c, s', items[1..]));
      var now := clock(|rest|);
      assert forall f | f in Sent(c, s', items[1..]) :: f in Sent(c, s, items);
      SendsNext(c, first, sent, wire, k, s, items);
      if item.Beat? {
        assert EncodeFrames(Wire(c, s, items)) == EncodeFrame(HEARTBEAT) + rest;
        UnforgedFrom(c, first, sent, wire, k, s', if touches then r.(lastSeen := now) else r,
                     items[1..], clock, touches);
        UnforgedFirst(c, first, sent, wire, r, HEARTBEAT, rest, clock, touches);
      } else if EncryptFrame(c, s, item.f, item.now).0.Err? {
        RefusalKeeps(c, s, item.f, item.now);
        assert Wire(c, s, items) == Wire(c, s', items[1..]);
        UnforgedFrom(c, first, sent, wire, k, s', r, items[1..], clock, touches);
      } else {
        assert Wire(c, s, items) == [wire[k]] + Wire(c, s', items[1..]);
        assert EncodeFrames(Wire(c, s, items)) == EncodeFrame(wire[k]) + rest;
        MirroredOpens(c, s, r, item.f, item.now, now);
        OwnWasSealed(c, first, sent, wire, s, r, k, items);
        UnforgedFrom(c, first, sent, wire, k + 1, s', DecryptFrame(c, r, wire[k], now).1, items[1..], clock, touches);
        UnforgedFirst(c, first, sent, wire, r, wire[k], rest, clock, touches);
      }
    }
  }

  lemma EmptyStream(c: Cipher.Suite, s: Session, sent: seq<Frame>, wire: seq<Frame>, r: Session,
                    clock: nat -> int, touches: bool)
    ensures Unforged(c, s, sent, wire, r, [], clock, touches)
  {}

  /** The `k`-th record was sealed under its own number. */
  lemma OwnWasSealed(c: Cipher.Suite, first: Session, sent: seq<Frame>, wire: seq<Frame>,
                     s: Session, r: Session, k: nat, items: seq<Item>)
    requires SendsRest(c, first, sent, wire, k, s, items) && Mirrored(s, r) && k < |sent| && k < |wire|
    ensures WasSealed(c, first, sent, wire, r, wire[k], r.rxSequence)
  {
    hide Cipher.DeriveNonce;
    assert NonceOf(c, first, k) == RxNonce(c, r, r.rxSequence);
    assert Cipher.BuildAAD(wire[k], r.rxEpoch, r.rxSequence) == AadOf(first, sent[k], k);
  }
}
