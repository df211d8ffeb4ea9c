/** transport/tcp/client.go: frames on a byte stream, and the encrypted channel over it. */
module Streams {
  import opened Results
  import opened Bytes
  import opened Codec
  import opened Frames
  import opened Sessions
  import Cipher

  const EOF := "EOF"
  const UNEXPECTED_EOF := "unexpected EOF"
  const NO_SESSION := "no secure session established"
  const HEARTBEAT_INTERVAL: int := 5 * SECOND

  // ---- Framing ----

  /** io.ReadFull on a stream that ends after `s`. */
  function ReadFull(s: Bytes, n: nat): (r: Taken<Bytes>)
    ensures r.Ok? <==> n <= |s|
    ensures r.Ok? ==> r == TakeBytes(s, n)
  {
    if n <= |s| then TakeBytes(s, n) else Err(if s == [] then EOF else UNEXPECTED_EOF)
  }

  /** readFrame: any version and any 32-bit length is taken. */
  function ReadFrame(s: Bytes): (r: Taken<Frame>)
    ensures r.Ok? ==> |r.value.1| + 7 <= |s| && |r.value.0.payload| < TWO_32
  {
    var (header, rest) :- ReadFull(s, 7);
    var fields := TakeHeader(header).value.0;
    var (payload, t) :- ReadFull(rest, fields.3);
    Ok((Frame(fields.0, fields.1, fields.2, payload), t))
  }

  /** The frames a reader gets out of a stream before it meets an error. */
  function ReadFrames(s: Bytes): seq<Frame>
    decreases |s|
  {
    match ReadFrame(s)
    case Err(_) => []
    case Ok((f, t)) => [f] + ReadFrames(t)
  }

  lemma TakesHeader(f: Frame, t: Bytes)
    ensures TakeHeader(EncodeHeader(f) + t)
         == Ok(((f.version, f.msgType, f.flags, |f.payload| % TWO_32), t))
  {
    HeaderTaken(f, t);
  }

  lemma ReadFrameOf(f: Frame, t: Bytes)
    requires |f.payload| < TWO_32
    ensures ReadFrame(EncodeFrame(f) + t) == Ok((f, t))
  {
    hide EncodeHeader, TakeHeader, TakeBytes;
    var s := EncodeFrame(f) + t;
    assert s == EncodeHeader(f) + (f.payload + t);
    TakeBytesOf(EncodeHeader(f), f.payload + t);
    TakesHeader(f, []);
    assert EncodeHeader(f) + [] == EncodeHeader(f);
    TakeBytesOf(f.payload, t);
  }

  lemma HeaderIsEncoded(h: Bytes, f: Frame)
    requires |h| == 7 && TakeHeader(h).Ok?
    requires TakeHeader(h).value.0 == (f.version, f.msgType, f.flags, |f.payload|)
    ensures h == EncodeHeader(f)
  {
    hide BigEndian, Value, Pow256;
    var (version, s1) := TakeU8(h).value;
    var (msgType, s2) := TakeU8(s1).value;
    var (flags, s3) := TakeU8(s2).value;
    var (length, s4) := TakeU32(s3).value;
    assert s4 == [];
    assert h == [version] + ([msgType] + ([flags] + U32(length)));
  }

  /** readFrame consumed exactly the encoding of the frame it returned. */
  lemma ReadFrameConsumes(s: Bytes)
    requires ReadFrame(s).Ok?
    ensures s == EncodeFrame(ReadFrame(s).value.0) + ReadFrame(s).value.1
  {
    var (header, rest) := ReadFull(s, 7).value;
    var (f, t) := ReadFrame(s).value;
    HeaderIsEncoded(header, f);
    assert header + (f.payload + t) == EncodeFrame(f) + t;
  }

  /** The two parsers agree: frame.Decode accepts exactly what readFrame accepts with version 1
      and at most 16 MiB, with the same frame and the same bytes consumed. */
  lemma ParsersAgree(s: Bytes, f: Frame, t: Bytes)
    ensures DecodeFrame(s) == Ok((f, t))
       <==> ReadFrame(s) == Ok((f, t)) && f.version == VERSION && |f.payload| <= MAX_PAYLOAD_LEN
  {
    DecodeFrameExactly(s, f, t);
    if |f.payload| <= MAX_PAYLOAD_LEN && s == EncodeFrame(f) + t {
      ReadFrameOf(f, t);
    }
    if ReadFrame(s) == Ok((f, t)) {
      ReadFrameConsumes(s);
    }
  }

  /** Reading what was written gives the list back exactly when every length fits its field. */
  lemma {:induction false} FramingRoundTrip(fs: seq<Frame>)
    ensures ReadFrames(EncodeFrames(fs)) == fs <==> forall f | f in fs :: |f.payload| < TWO_32
  {
    if forall f | f in fs :: |f.payload| < TWO_32 {
      if fs == [] {
        assert ReadFrame([]).Err?;
      } else {
        ReadFrameOf(fs[0], EncodeFrames(fs[1..]));
        FramingRoundTrip(fs[1..]);
      }
    }
    ReadFramesFit(EncodeFrames(fs));
  }

  lemma {:induction false} ReadFramesFit(s: Bytes)
    ensures forall f | f in ReadFrames(s) :: |f.payload| < TWO_32
    decreases |s|
  {
    if ReadFrame(s).Ok? {
      ReadFramesFit(ReadFrame(s).value.1);
    }
  }

  // ---- The encrypted channel ----

  const HEARTBEAT := NewFrame(MSG_HEARTBEAT, 0, [])

  /** What the sending side does to the stream: an attempt to send, or a heartbeat. */
  datatype Item = Send(f: Frame, now: int) | Beat

  /** The sender's session after a list of items. */
  function After(c: Cipher.Suite, s: Session, items: seq<Item>): Session
    decreases |items|
  {
    if items == [] then s else After(c, AfterItem(c, s, items[0]), items[1..])
  }

  function AfterItem(c: Cipher.Suite, s: Session, item: Item): Session {
    if item.Beat? then s else EncryptFrame(c, s, item.f, item.now).1
  }

  /** The frames an item puts on the wire: none when encryption refuses the frame. */
  function WireOf(c: Cipher.Suite, s: Session, item: Item): seq<Frame> {
    if item.Beat? then [HEARTBEAT] else
    var r := EncryptFrame(c, s, item.f, item.now).0;
    if r.Err? then [] else [r.value]
  }

  function Wire(c: Cipher.Suite, s: Session, items: seq<Item>): seq<Frame>
    decreases |items|
  {
    if items == [] then []
    else WireOf(c, s, items[0]) + Wire(c, AfterItem(c, s, items[0]), items[1..])
  }

  /** The frames that were sent: those that encryption accepted. */
  function SentOf(c: Cipher.Suite, s: Session, item: Item): seq<Frame> {
    if item.Send? && EncryptFrame(c, s, item.f, item.now).0.Ok? then [item.f] else []
  }

  function Sent(c: Cipher.Suite, s: Session, items: seq<Item>): seq<Frame>
    decreases |items|
  {
    if items == [] then []
    else SentOf(c, s, items[0]) + Sent(c, AfterItem(c, s, items[0]), items[1..])
  }

  /** ReadEncrypted: heartbeats are skipped and touch the session; the first other frame is
      decrypted. A stream that ends is used up. `clock(n)` is the time when `n` bytes of the
      stream are left, so every frame that is read has a clock reading of its own. */
  function ReadEncrypted(c: Cipher.Suite, s: Session, stream: Bytes, clock: nat -> int, touches: bool)
    : (r: (Result<Frame>, Session, Bytes))
    ensures r.0.Ok? ==> |r.2| < |stream|
    decreases |stream|
  {
    match ReadFrame(stream)
    case Err(e) => (Err(e), s, [])
    case Ok((raw, rest)) =>
      if raw.msgType == MSG_HEARTBEAT then
        ReadEncrypted(c, if touches then s.(lastSeen := clock(|rest|)) else s, rest, clock, touches)
      else
        var (r, s') := DecryptFrame(c, s, raw, clock(|rest|));
        (r, s', rest)
  }

  /** Calling ReadEncrypted until it fails: the frames, the error and the session then. */
  function ReadAll(c: Cipher.Suite, s: Session, stream: Bytes, clock: nat -> int, touches: bool)
    : (seq<Frame>, string, Session)
    decreases |stream|
  {
    var (r, s', rest) := ReadEncrypted(c, s, stream, clock, touches);
    match r
    case Err(e) => ([], e, s')
    case Ok(f) => var (fs, e, s'') := ReadAll(c, s', rest, clock, touches); ([f] + fs, e, s'')
  }

  /** The receiver expects exactly what the sender will seal next. */
  ghost predicate Mirrored(s: Session, r: Session) {
    && r.role == s.role.Peer() && r.sessionId == s.sessionId
    && r.rxKey == s.txKey && r.rxEpoch == s.txEpoch && r.rxSequence == s.txSequence
    && r.replayMode == OrderedTcp
  }

  /** One sealed frame is opened by the mirrored session, which is mirrored again. */
  lemma MirroredOpens(c: Cipher.Suite, s: Session, r: Session, f: Frame, now: int, later: int)
    requires c.Sound() && Mirrored(s, r) && EncryptFrame(c, s, f, now).0.Ok?
    ensures var (enc, s') := EncryptFrame(c, s, f, now);
            var (dec, r') := DecryptFrame(c, r, enc.value, later);
            && dec == Ok(f) && Mirrored(s', r')
            && enc.value.msgType == f.msgType && |enc.value.payload| == |f.payload| + 16
  {
    hide Cipher.BuildAAD, Cipher.DeriveNonce;
    var nonce, aad := TxNonce(c, s), Cipher.BuildAAD(f, s.txEpoch, s.txSequence);
    assert nonce == RxNonce(c, r, r.rxSequence);
    Cipher.DecryptsWhatWasEncrypted(c, f, s.txKey, nonce, aad);
  }

  ghost predicate NoneIsHeartbeat(fs: seq<Frame>) {
    forall f | f in fs :: f.msgType != MSG_HEARTBEAT
  }

  /** The ciphertext of every frame, 16 bytes longer, fits its 32-bit length field. */
  ghost predicate CiphertextsFit(fs: seq<Frame>) {
    forall f | f in fs :: |f.payload| + 16 < TWO_32
  }

  function NonHeartbeats(fs: seq<Frame>): nat {
    if fs == [] then 0
    else (if fs[0].msgType == MSG_HEARTBEAT then 0 else 1) + NonHeartbeats(fs[1..])
  }

  /** Reading a stream that starts with a heartbeat is reading what follows it. */
  lemma SkipsHeartbeat(c: Cipher.Suite, r: Session, f: Frame, rest: Bytes, clock: nat -> int, touches: bool)
    requires f.msgType == MSG_HEARTBEAT && |f.payload| < TWO_32
    ensures var r' := if touches then r.(lastSeen := clock(|rest|)) else r;
            ReadAll(c, r, EncodeFrame(f) + rest, clock, touches) == ReadAll(c, r', rest, clock, touches)
  {
    ReadFrameOf(f, rest);
  }

  /** One wire frame that opens is read first. */
  lemma ReadsFirst(c: Cipher.Suite, r: Session, f: Frame, rest: Bytes, clock: nat -> int, touches: bool)
    requires f.msgType != MSG_HEARTBEAT && |f.payload| < TWO_32
    ensures var (d, r') := DecryptFrame(c, r, f, clock(|rest|));
            var all := ReadAll(c, r, EncodeFrame(f) + rest, clock, touches);
            match d
            case Err(e) => all == ([], e, r')
            case Ok(g) => var (fs, e, r'') := ReadAll(c, r', rest, clock, touches);
                          all == ([g] + fs, e, r'')
  {
    hide DecryptFrame;
    ReadFrameOf(f, rest);
  }

  /** Delivery: what was sent comes back, all of it, in order, and nothing else; heartbeats
      consume no sequence number, and the two sessions are mirrored again at the end. Frames
      that encryption refused may be of any kind. */
  lemma {:induction false} Delivers(c: Cipher.Suite, s: Session, r: Session, items: seq<Item>,
                                    clock: nat -> int, touches: bool)
    requires c.Sound() && Mirrored(s, r)
    requires NoneIsHeartbeat(Sent(c, s, items)) && CiphertextsFit(Sent(c, s, items))
    ensures var (fs, e, r') := ReadAll(c, r, EncodeFrames(Wire(c, s, items)), clock, touches);
            fs == Sent(c, s, items) && e == EOF && Mirrored(After(c, s, items), r')
    decreases |items|
  {
    hide EncryptFrame, DecryptFrame, EncodeFrame, Cipher.Suite.Sound;
    if items == [] {
      assert ReadFrame([]) == Err(EOF);
    } else {
      var item, s' := items[0], AfterItem(c, s, items[0]);
      var rest := EncodeFrames(Wire(c, s', items[1..]));
      assert forall f | f in Sent(c, s', items[1..]) :: f in Sent(c, s, items);
      if item.Beat? {
        assert EncodeFrames(Wire(c, s, items)) == EncodeFrame(HEARTBEAT) + rest;
        SkipsHeartbeat(c, r, HEARTBEAT, rest, clock, touches);
        Delivers(c, s', if touches then r.(lastSeen := clock(|rest|)) else r, items[1..], clock, touches);
      } else if EncryptFrame(c, s, item.f, item.now).0.Err? {
        RefusalKeeps(c, s, item.f, item.now);
        assert Wire(c, s, items) == Wire(c, s', items[1..]);
        Delivers(c, s', r, items[1..], clock, touches);
      } else {
        var enc := EncryptFrame(c, s, item.f, item.now).0.value;
        assert item.f in Sent(c, s, items);
        assert Wire(c, s, items) == [enc] + Wire(c, s', items[1..]);
        assert EncodeFrames(Wire(c, s, items)) == EncodeFrame(enc) + rest;
        MirroredOpens(c, s, r, item.f, item.now, clock(|rest|));
        ReadsFirst(c, r, enc, rest, clock, touches);
        Delivers(c, s', DecryptFrame(c, r, enc, clock(|rest|)).1, items[1..], clock, touches);
      }
    }
  }

  lemma RefusalKeeps(c: Cipher.Suite, s: Session, f: Frame, now: int)
    requires EncryptFrame(c, s, f, now).0.Err?
    ensures EncryptFrame(c, s, f, now).1 == s
  {}

  /** A reader returns at most one frame for each frame on the wire that is no heartbeat. */
  lemma {:induction false} ReadsNoMore(c: Cipher.Suite, r: Session, fs: seq<Frame>, clock: nat -> int, touches: bool)
    requires forall f | f in fs :: |f.payload| < TWO_32
    ensures |ReadAll(c, r, EncodeFrames(fs), clock, touches).0| <= NonHeartbeats(fs)
    decreases |fs|
  {
    hide DecryptFrame, EncodeFrame;
    if fs == [] {
      assert ReadFrame([]) == Err(EOF);
    } else {
      var rest := EncodeFrames(fs[1..]);
      if fs[0].msgType == MSG_HEARTBEAT {
        SkipsHeartbeat(c, r, fs[0], rest, clock, touches);
        ReadsNoMore(c, if touches then r.(lastSeen := clock(|rest|)) else r, fs[1..], clock, touches);
      } else {
        ReadsFirst(c, r, fs[0], rest, clock, touches);
        ReadsNoMore(c, DecryptFrame(c, r, fs[0], clock(|rest|)).1, fs[1..], clock, touches);
      }
    }
  }

  lemma {:induction false} NonHeartbeatsSum(fs: seq<Frame>, gs: seq<Frame>)
    ensures NonHeartbeats(fs + gs) == NonHeartbeats(fs) + NonHeartbeats(gs)
  {
    if fs == [] {
      assert fs + gs == gs;
    } else {
      assert (fs + gs)[1..] == fs[1..] + gs;
      NonHeartbeatsSum(fs[1..], gs);
    }
  }

  /** Sealing keeps message types, so the wire carries as many non-heartbeats as were sent;
      and where ciphertexts fit, every wire frame fits its length field. */
  lemma {:induction false} WireCounts(c: Cipher.Suite, s: Session, items: seq<Item>)
    requires c.Sound() && CiphertextsFit(Sent(c, s, items))
    ensures NonHeartbeats(Wire(c, s, items)) == NonHeartbeats(Sent(c, s, items))
    ensures forall f | f in Wire(c, s, items) :: |f.payload| < TWO_32
    decreases |items|
  {
    hide EncryptFrame, Cipher.Suite.Sound;
    if items != [] {
      var s' := AfterItem(c, s, items[0]);
      assert forall f | f in Sent(c, s', items[1..]) :: f in Sent(c, s, items);
      WireCounts(c, s', items[1..]);
      NonHeartbeatsSum(WireOf(c, s, items[0]), Wire(c, s', items[1..]));
      NonHeartbeatsSum(SentOf(c, s, items[0]), Sent(c, s', items[1..]));
      if items[0].Send? && EncryptFrame(c, s, items[0].f, items[0].now).0.Ok? {
        assert items[0].f in Sent(c, s, items);
        SealingKeeps(c, s, items[0].f, items[0].now);
      }
    }
  }

  lemma SealingKeeps(c: Cipher.Suite, s: Session, f: Frame, now: int)
    requires c.Sound() && EncryptFrame(c, s, f, now).0.Ok?
    ensures var enc := EncryptFrame(c, s, f, now).0.value;
            enc.msgType == f.msgType && |enc.payload| == |f.payload| + 16
  {}

  lemma {:induction false} FewerNonHeartbeats(fs: seq<Frame>)
    ensures NonHeartbeats(fs) <= |fs|
    ensures NonHeartbeats(fs) == |fs| <==> NoneIsHeartbeat(fs)
  {
    if fs != [] {
      FewerNonHeartbeats(fs[1..]);
      assert fs == [fs[0]] + fs[1..];
    }
  }

  /** A frame that is read came with a ciphertext that fits 32 bits, whatever the stream. */
  lemma {:induction false} ReadFits(c: Cipher.Suite, r: Session, stream: Bytes, clock: nat -> int, touches: bool)
    requires c.Sound()
    ensures var d := ReadEncrypted(c, r, stream, clock, touches).0;
            d.Ok? ==> |d.value.payload| + 16 < TWO_32
    decreases |stream|
  {
    hide Cipher.Suite.Sound;
    match ReadFrame(stream)
    case Err(_) =>
    case Ok((raw, rest)) =>
      if raw.msgType == MSG_HEARTBEAT {
        ReadFits(c, if touches then r.(lastSeen := clock(|rest|)) else r, rest, clock, touches);
      } else if DecryptFrame(c, r, raw, clock(|rest|)).0.Ok? {
        OpeningShortens(c, r, raw, clock(|rest|));
      }
  }

  lemma OpeningShortens(c: Cipher.Suite, r: Session, f: Frame, now: int)
    requires c.Sound() && DecryptFrame(c, r, f, now).0.Ok?
    ensures |DecryptFrame(c, r, f, now).0.value.payload| + 16 == |f.payload|
  {
    hide Cipher.BuildAAD, Cipher.DeriveNonce;
  }

  lemma {:induction false} AllReadFit(c: Cipher.Suite, r: Session, stream: Bytes, clock: nat -> int, touches: bool)
    requires c.Sound()
    ensures CiphertextsFit(ReadAll(c, r, stream, clock, touches).0)
    decreases |stream|
  {
    hide ReadEncrypted, Cipher.Suite.Sound;
    ReadFits(c, r, stream, clock, touches);
    var (d, r', rest) := ReadEncrypted(c, r, stream, clock, touches);
    if d.Ok? {
      AllReadFit(c, r', rest, clock, touches);
    }
  }

  /** The channel delivers exactly what was sent if and only if no frame that was sent has the
      message type of a heartbeat, which the reader skips even when encrypted, and none is so
      long that the length field of its ciphertext is cut. */
  lemma DeliversExactlyWhen(c: Cipher.Suite, s: Session, r: Session, items: seq<Item>,
                            clock: nat -> int, touches: bool)
    requires c.Sound() && Mirrored(s, r)
    ensures ReadAll(c, r, EncodeFrames(Wire(c, s, items)), clock, touches).0 == Sent(c, s, items)
       <==> NoneIsHeartbeat(Sent(c, s, items)) && CiphertextsFit(Sent(c, s, items))
  {
    hide ReadAll, Wire, Sent, EncodeFrames, Cipher.Suite.Sound, Mirrored;
    var sent := Sent(c, s, items);
    AllReadFit(c, r, EncodeFrames(Wire(c, s, items)), clock, touches);
    if CiphertextsFit(sent) {
      if NoneIsHeartbeat(sent) {
        Delivers(c, s, r, items, clock, touches);
      } else {
        WireCounts(c, s, items);
        ReadsNoMore(c, r, Wire(c, s, items), clock, touches);
        FewerNonHeartbeats(sent);
      }
    }
  }

  /** A frame of the heartbeat's type is accepted for sending and never comes back. */
  lemma HeartbeatTypedFrameIsLost(c: Cipher.Suite, s: Session, r: Session, now: int, clock: nat -> int, touches: bool)
    requires c.Sound() && s.txSequence < MAX_U64
    ensures var f := NewFrame(MSG_HEARTBEAT, 0, [7]);
            var items := [Send(f, now)];
            Sent(c, s, items) == [f] && ReadAll(c, r, EncodeFrames(Wire(c, s, items)), clock, touches).0 == []
  {
    hide Cipher.Suite.Sound, ReadAll, Cipher.BuildAAD, Cipher.DeriveNonce;
    var f := NewFrame(MSG_HEARTBEAT, 0, [7]);
    var items := [Send(f, now)];
    assert Sent(c, s, items) == [f] + Sent(c, AfterItem(c, s, items[0]), []);
    WireCounts(c, s, items);
    ReadsNoMore(c, r, Wire(c, s, items), clock, touches);
  }

  /** A frame whose ciphertext reaches 2^32 bytes is accepted for sending, and no session,
      mirrored or not, reads it back from the stream. */
  lemma LongFrameIsLost(c: Cipher.Suite, s: Session, r: Session, f: Frame, now: int, clock: nat -> int, touches: bool)
    requires c.Sound() && s.txSequence < MAX_U64 && !Cipher.HasEncryptedFlag(f.flags)
    requires |f.payload| + 16 >= TWO_32
    ensures var items := [Send(f, now)];
            Sent(c, s, items) == [f] && f !in ReadAll(c, r, EncodeFrames(Wire(c, s, items)), clock, touches).0
  {
    hide Cipher.Suite.Sound, ReadAll, Cipher.BuildAAD, Cipher.DeriveNonce;
    var items := [Send(f, now)];
    assert Sent(c, s, items) == [f] + Sent(c, AfterItem(c, s, items[0]), []);
    AllReadFit(c, r, EncodeFrames(Wire(c, s, items)), clock, touches);
  }

  /** Sending in several calls is sending the joined list: bytes, frames and session agree. */
  lemma ItemsJoin(c: Cipher.Suite, s: Session, items: seq<Item>, more: seq<Item>)
    ensures After(c, s, items + more) == After(c, After(c, s, items), more)
    ensures Sent(c, s, items + more) == Sent(c, s, items) + Sent(c, After(c, s, items), more)
    ensures EncodeFrames(Wire(c, s, items + more))
         == EncodeFrames(Wire(c, s, items)) + EncodeFrames(Wire(c, After(c, s, items), more))
  {
    hide After, Sent, Wire, EncodeFrames;
    AfterJoins(c, s, items, more);
    SentJoins(c, s, items, more);
    WireJoins(c, s, items, more);
    EncodeFramesJoin(Wire(c, s, items), Wire(c, After(c, s, items), more));
  }

  lemma Tail(items: seq<Item>, more: seq<Item>)
    requires items != []
    ensures (items + more)[0] == items[0] && (items + more)[1..] == items[1..] + more
  {}

  lemma {:induction false} AfterJoins(c: Cipher.Suite, s: Session, items: seq<Item>, more: seq<Item>)
    ensures After(c, s, items + more) == After(c, After(c, s, items), more)
    decreases |items|
  {
    hide AfterItem;
    if items == [] {
      assert items + more == more;
    } else {
      Tail(items, more);
      AfterJoins(c, AfterItem(c, s, items[0]), items[1..], more);
    }
  }

  lemma {:induction false} SentJoins(c: Cipher.Suite, s: Session, items: seq<Item>, more: seq<Item>)
    ensures Sent(c, s, items + more) == Sent(c, s, items) + Sent(c, After(c, s, items), more)
    decreases |items|
  {
    hide AfterItem, SentOf;
    if items == [] {
      assert items + more == more;
    } else {
      Tail(items, more);
      SentJoins(c, AfterItem(c, s, items[0]), items[1..], more);
    }
  }

  lemma {:induction false} WireJoins(c: Cipher.Suite, s: Session, items: seq<Item>, more: seq<Item>)
    ensures Wire(c, s, items + more) == Wire(c, s, items) + Wire(c, After(c, s, items), more)
    decreases |items|
  {
    hide AfterItem, WireOf;
    if items == [] {
      assert items + more == more;
    } else {
      Tail(items, more);
      WireJoins(c, AfterItem(c, s, items[0]), items[1..], more);
    }
  }

  lemma {:induction false} EncodeFramesJoin(fs: seq<Frame>, gs: seq<Frame>)
    ensures EncodeFrames(fs + gs) == EncodeFrames(fs) + EncodeFrames(gs)
  {
    hide EncodeFrame;
    if fs == [] {
      assert fs + gs == gs;
    } else {
      assert (fs + gs)[1..] == fs[1..] + gs;
      EncodeFramesJoin(fs[1..], gs);
    }
  }
}
