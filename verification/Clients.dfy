/** transport/tcp/client.go: the connection and the client, reading and writing in place. */
module Clients {
  import opened Results
  import opened Bytes
  import opened Codec
  import opened Frames
  import opened Sessions
  import opened Streams
  import opened HandshakeTypes
  import opened HandshakeMessages
  import opened Handshakes
  import Cipher

  /** Both directions of a connection: bytes still to be read, and bytes written. */
  class Conn {
    var incoming: Bytes
    var written: Bytes

    constructor (incoming: Bytes)
      ensures this.incoming == incoming && written == []
    {
      this.incoming := incoming;
      written := [];
    }

    /** A read that the end of the stream cuts short uses up what there was. */
    method ReadExactly(n: nat) returns (r: Result<Bytes>)
      modifies this`incoming
      ensures match ReadFull(old(incoming), n)
              case Ok((b, t)) => r == Ok(b) && incoming == t
              case Err(e) => r == Err(e) && incoming == []
    {
      if |incoming| < n {
        r := Err(if incoming == [] then EOF else UNEXPECTED_EOF);
        incoming := [];
        return;
      }
      r := Ok(incoming[..n]);
      incoming := incoming[n..];
    }

    method Write(b: Bytes)
      modifies this`written
      ensures written == old(written) + b
    {
      written := written + b;
    }
  }

  method WriteFrame(conn: Conn, f: Frame)
    modifies conn`written
    ensures conn.written == old(conn.written) + EncodeFrame(f)
  {
    var enc := new Encoder();
    Encode(f, enc);
    conn.Write(enc.buf);
  }

  method ReadFrameFrom(conn: Conn) returns (r: Result<Frame>)
    modifies conn`incoming
    ensures match ReadFrame(old(conn.incoming))
            case Ok((f, t)) => r == Ok(f) && conn.incoming == t
            case Err(e) => r == Err(e) && conn.incoming == []
  {
    var header :- conn.ReadExactly(7);
    var dec := new Decoder(header);
    // The header has seven bytes, so these four reads succeed.
    var version := dec.ReadU8();
    var msgType := dec.ReadU8();
    var flags := dec.ReadU8();
    var length := dec.ReadU32();
    var payload :- conn.ReadExactly(length.value);
    r := Ok(Frame(version.value, msgType.value, flags.value, payload));
  }

  /** The client's side of the handshake over a stream: the output, what was written and what
      is left to be read. */
  function Connect(p: Primitives, s: Party, incoming: Bytes, now: u64): (Result<HandshakeOutput>, Bytes, Bytes) {
    var (hello, s1) := BuildClientHello(s);
    if hello.Err? then (Err(hello.error), [], incoming) else
    var started := EncodeFrame(hello.value);
    match ReadFrame(incoming)
    case Err(e) => (Err(e), started, [])
    case Ok((f, rest)) =>
      if f.msgType != MSG_SERVER_HELLO then (Err("expected MSG_SERVER_HELLO"), started, rest) else
      var (accepted, s2) := HandleServerHello(p, s1, f, now);
      if accepted.Err? then (Err(accepted.error), started, rest) else
      var finish := BuildClientFinish(p, s2);
      if finish.Err? then (Err(finish.error), started, rest) else
      (Finalize(p, s2), started + EncodeFrame(finish.value), rest)
  }

  method Exchange(p: Primitives, conn: Conn, initiator: SecureInitiator, now: u64)
    returns (r: Result<HandshakeOutput>)
    modifies conn, initiator
    ensures var (output, written, rest) := Connect(p, old(initiator.View()), old(conn.incoming), now);
            r == output && conn.written == old(conn.written) + written && conn.incoming == rest
  {
    hide BuildClientHello, HandleServerHello, BuildClientFinish, Finalize, ReadFrame, EncodeFrame;
    var hello :- initiator.Start();
    WriteFrame(conn, hello);
    var answer :- ReadFrameFrom(conn);
    if answer.msgType != MSG_SERVER_HELLO {
      return Err("expected MSG_SERVER_HELLO");
    }
    var _ :- initiator.ReceiveServerHello(p, answer, now);
    var finish :- initiator.Finish(p);
    WriteFrame(conn, finish);
    r := initiator.Complete(p);
  }

  class Client {
    const conn: Conn
    var session: State?
    var lastHeartbeatSent: int

    ghost predicate Valid()
      reads this, session, if session == null then {} else session.Footprint()
    {
      session != null ==> session.Valid()
    }

    constructor (conn: Conn, now: int)
      ensures Valid() && this.conn == conn && session == null && lastHeartbeatSent == now
    {
      this.conn := conn;
      session := null;
      lastHeartbeatSent := now;
    }

    /** A session is installed only by a handshake that completed. */
    method HandshakeSecure(p: Primitives, id: Identity, bundle: IdentityBundle, trust: TrustStore,
                           policy: HandshakePolicy, ephPrivate: Bytes32, unixNow: u64, now: int)
      returns (r: Result<Unit>)
      requires Valid()
      modifies this`session, conn
      ensures Valid()
      ensures var s := NewParty(p, id, bundle, trust.pinned, policy, ephPrivate);
              var (output, written, rest) := Connect(p, s, old(conn.incoming), unixNow);
              && conn.written == old(conn.written) + written && conn.incoming == rest
              && match output
                 case Err(e) => r == Err(e) && session == old(session)
                 case Ok(o) => r == Ok(Unit) && session != null && fresh(session)
                               && session.View() == FromHandshakeOutput(o, now)
    {
      hide Connect, FromHandshakeOutput;
      var initiator := new SecureInitiator(p, id, bundle, trust, policy, ephPrivate);
      var output :- Exchange(p, conn, initiator, unixNow);
      session := new State(output, now);
      r := Ok(Unit);
    }

    /** Whether a heartbeat is due at `now`. */
    predicate Due(now: int)
      reads this`lastHeartbeatSent
    {
      now - lastHeartbeatSent >= HEARTBEAT_INTERVAL
    }

    method MaybeSendHeartbeat(now: int)
      modifies this`lastHeartbeatSent, conn`written
      ensures conn.written == old(conn.written) + (if old(Due(now)) then EncodeFrame(HEARTBEAT) else [])
      ensures lastHeartbeatSent == if old(Due(now)) then now else old(lastHeartbeatSent)
    {
      if now - lastHeartbeatSent < HEARTBEAT_INTERVAL {
        return;
      }
      WriteFrame(conn, HEARTBEAT);
      lastHeartbeatSent := now;
    }

    /** The bytes written are the wire form of the items done: the frame, if it was accepted,
        and after it a heartbeat if one was due. */
    method SendEncrypted(c: Cipher.Suite, f: Frame, now: int) returns (r: Result<Unit>)
      requires Valid()
      modifies this`lastHeartbeatSent, conn`written, session
      ensures Valid() && session == old(session)
      ensures session == null ==> r == Err(NO_SESSION) && conn.written == old(conn.written)
      ensures session != null ==>
                var items := [Send(f, now)] + (if r.Ok? && old(Due(now)) then [Beat] else []);
                && session.View() == After(c, old(session.View()), items)
                && conn.written == old(conn.written) + EncodeFrames(Wire(c, old(session.View()), items))
                && (r.Ok? <==> Sent(c, old(session.View()), items) == [f])
      ensures lastHeartbeatSent == if r.Ok? && old(Due(now)) then now else old(lastHeartbeatSent)
    {
      if session == null {
        return Err(NO_SESSION);
      }
      ghost var s := session.View();
      var enc := session.Encrypt(c, f, now);
      if enc.Err? {
        ItemsOfRefusal(c, s, f, now);
        return Err(enc.error);
      }
      WriteFrame(conn, enc.value);
      ItemsOfSend(c, s, f, now);
      MaybeSendHeartbeat(now);
      r := Ok(Unit);
    }

    /** A skipped heartbeat: the router may touch the session, and one is written if due. */
    method SkipHeartbeat(now: int, touches: bool)
      requires Valid() && session != null
      modifies this`lastHeartbeatSent, conn`written, session
      ensures Valid() && session.udpReplayWindow == old(session.udpReplayWindow)
      ensures session.View() == (if touches then old(session.View()).(lastSeen := now) else old(session.View()))
      ensures conn.written == old(conn.written) + (if old(Due(now)) then EncodeFrame(HEARTBEAT) else [])
      ensures lastHeartbeatSent == if old(Due(now)) then now else old(lastHeartbeatSent)
    {
      if touches {
        session.Touch(now);
      }
      MaybeSendHeartbeat(now);
    }

    /** Heartbeats are skipped until a frame arrives; `touches` says whether the router has a
        heartbeat handler, which touches the session. After each skipped heartbeat a heartbeat
        is written if one is due by then. */
    method ReadEncryptedFrame(c: Cipher.Suite, clock: nat -> int, touches: bool) returns (r: Result<Frame>)
      requires Valid()
      modifies this`lastHeartbeatSent, conn, session
      ensures Valid() && session == old(session)
      ensures session == null ==>
                r == Err(NO_SESSION) && conn.incoming == old(conn.incoming)
                && conn.written == old(conn.written) && lastHeartbeatSent == old(lastHeartbeatSent)
      ensures session != null ==>
                (r, session.View(), conn.incoming)
                  == ReadEncrypted(c, old(session.View()), old(conn.incoming), clock, touches)
      ensures session != null ==>
                && conn.written == old(conn.written) + Beats(old(conn.incoming), clock, old(lastHeartbeatSent))
                && lastHeartbeatSent == LastBeat(old(conn.incoming), clock, old(lastHeartbeatSent))
    {
      hide DecryptFrame, EncodeFrame, ReadFrame, ReadEncrypted, Beats, LastBeat;
      if session == null {
        return Err(NO_SESSION);
      }
      while true
        invariant Valid() && session == old(session)
        invariant session.udpReplayWindow == old(session.udpReplayWindow)
        invariant ReadEncrypted(c, session.View(), conn.incoming, clock, touches)
               == ReadEncrypted(c, old(session.View()), old(conn.incoming), clock, touches)
        invariant old(conn.written) + Beats(old(conn.incoming), clock, old(lastHeartbeatSent))
               == conn.written + Beats(conn.incoming, clock, lastHeartbeatSent)
        invariant LastBeat(old(conn.incoming), clock, old(lastHeartbeatSent))
               == LastBeat(conn.incoming, clock, lastHeartbeatSent)
        decreases |conn.incoming|
      {
        ReadStep(c, session.View(), conn.incoming, clock, lastHeartbeatSent, touches);
        var raw :- ReadFrameFrom(conn);
        if raw.msgType == MSG_HEARTBEAT {
          SkipHeartbeat(clock(|conn.incoming|), touches);
          continue;
        }
        r := session.Decrypt(c, raw, clock(|conn.incoming|));
        return;
      }
    }
  }

  // ---- Heartbeats written while reading ----

  /** When heartbeats are written during one read: at each skipped heartbeat at which one was
      due, counting from the last one written. */
  function Answers(stream: Bytes, clock: nat -> int, last: int): seq<int>
    decreases |stream|
  {
    match ReadFrame(stream)
    case Err(_) => []
    case Ok((f, rest)) =>
      if f.msgType != MSG_HEARTBEAT then []
      else if clock(|rest|) - last < HEARTBEAT_INTERVAL then Answers(rest, clock, last)
      else [clock(|rest|)] + Answers(rest, clock, clock(|rest|))
  }

  function Heartbeats(n: nat): seq<Frame> {
    if n == 0 then [] else [HEARTBEAT] + Heartbeats(n - 1)
  }

  /** The bytes of the heartbeats written during one read, one for each answer. */
  function Beats(stream: Bytes, clock: nat -> int, last: int): Bytes {
    EncodeFrames(Heartbeats(|Answers(stream, clock, last)|))
  }

  /** When the last heartbeat was written, after one read. */
  function LastBeat(stream: Bytes, clock: nat -> int, last: int): int {
    var answers := Answers(stream, clock, last);
    if answers == [] then last else answers[|answers| - 1]
  }

  /** One turn of the reading loop, for the frame returned and for the heartbeats written. */
  lemma ReadStep(c: Cipher.Suite, s: Session, stream: Bytes, clock: nat -> int, last: int, touches: bool)
    ensures var whole := ReadEncrypted(c, s, stream, clock, touches);
            var beats, lastBeat := Beats(stream, clock, last), LastBeat(stream, clock, last);
            match ReadFrame(stream)
            case Err(e) => whole == (Err(e), s, []) && beats == [] && lastBeat == last
            case Ok((f, rest)) =>
              var now := clock(|rest|);
              if f.msgType != MSG_HEARTBEAT then
                var (r, s') := DecryptFrame(c, s, f, now);
                whole == (r, s', rest) && beats == [] && lastBeat == last
              else
                && whole == ReadEncrypted(c, if touches then s.(lastSeen := now) else s, rest, clock, touches)
                && (if now - last < HEARTBEAT_INTERVAL then
                      beats == Beats(rest, clock, last) && lastBeat == LastBeat(rest, clock, last)
                    else
                      beats == EncodeFrame(HEARTBEAT) + Beats(rest, clock, now)
                      && lastBeat == LastBeat(rest, clock, now))
  {
    hide ReadFrame, DecryptFrame, EncodeFrame;
  }

  /** Each time is at least five seconds after the one before it. */
  ghost predicate Spaced(times: seq<int>) {
    forall k | 0 < k < |times| :: times[k] - times[k - 1] >= 5_000_000_000
  }

  /** However many heartbeats are skipped in one read, those written are at least an interval
      apart, the first from the one written before the read. */
  lemma {:induction false} AnswersAreSpaced(stream: Bytes, clock: nat -> int, last: int)
    ensures Spaced([last] + Answers(stream, clock, last))
    decreases |stream|
  {
    hide ReadFrame;
    match ReadFrame(stream)
    case Err(_) =>
    case Ok((f, rest)) =>
      if f.msgType == MSG_HEARTBEAT {
        var now := clock(|rest|);
        if now - last < HEARTBEAT_INTERVAL {
          AnswersAreSpaced(rest, clock, last);
        } else {
          AnswersAreSpaced(rest, clock, now);
          SpacedFrom(last, [now] + Answers(rest, clock, now));
        }
      }
  }

  /** The readings at the heartbeats skipped during one read. */
  function Skipped(stream: Bytes, clock: nat -> int): seq<int>
    decreases |stream|
  {
    match ReadFrame(stream)
    case Err(_) => []
    case Ok((f, rest)) => if f.msgType != MSG_HEARTBEAT then [] else [clock(|rest|)] + Skipped(rest, clock)
  }

  ghost predicate GoesForward(clock: nat -> int) {
    forall m: nat, n: nat | m <= n :: clock(m) >= clock(n)
  }

  /** One of the times lies less than five seconds back from `t`. */
  ghost predicate Recent(t: int, times: seq<int>) {
    exists x | x in times :: 0 <= t - x < 5_000_000_000
  }

  /** No heartbeat is owed: at every skipped heartbeat less than an interval has passed since one
      was written, at that time or before. */
  lemma {:induction false} AnswersAreComplete(stream: Bytes, clock: nat -> int, last: int)
    requires GoesForward(clock) && last <= clock(|stream|)
    ensures forall t | t in Skipped(stream, clock) :: Recent(t, [last] + Answers(stream, clock, last))
    decreases |stream|
  {
    hide ReadFrame;
    match ReadFrame(stream)
    case Err(_) =>
    case Ok((f, rest)) =>
      if f.msgType == MSG_HEARTBEAT {
        var now := clock(|rest|);
        var written := if now - last < HEARTBEAT_INTERVAL then last else now;
        AnswersAreComplete(rest, clock, written);
        forall t | t in Skipped(stream, clock)
          ensures Recent(t, [last] + Answers(stream, clock, last))
        {
          if t in Skipped(rest, clock) {
            var x :| x in [written] + Answers(rest, clock, written) && 0 <= t - x < HEARTBEAT_INTERVAL;
            assert x in [last] + Answers(stream, clock, last);
          } else {
            assert t == now && written in [last] + Answers(stream, clock, last);
          }
        }
      }
  }

  lemma SpacedFrom(first: int, times: seq<int>)
    requires times != [] && times[0] - first >= HEARTBEAT_INTERVAL && Spaced(times)
    ensures Spaced([first] + times)
  {
    var all := [first] + times;
    forall k | 0 < k < |all|
      ensures all[k] - all[k - 1] >= HEARTBEAT_INTERVAL
    {
      if k > 1 {
        assert all[k] == times[k - 1] && all[k - 1] == times[k - 2];
      }
    }
  }

  /** The client finish and the heartbeat share a message type: a client waiting for the answer
      to its hello gives up on either, and a reader with a session skips either. */
  lemma FinishReadsAsHeartbeat(p: Primitives, finished: Party, c: Cipher.Suite, r: Session, i: Party,
                               rest: Bytes, now: u64, clock: nat -> int, touches: bool)
    requires BuildClientFinish(p, finished).Ok?
    ensures var f := BuildClientFinish(p, finished).value;
            var r' := if touches then r.(lastSeen := clock(|rest|)) else r;
            && f.msgType == MSG_HEARTBEAT
            && ReadAll(c, r, EncodeFrame(f) + rest, clock, touches) == ReadAll(c, r', rest, clock, touches)
            && (ClientHelloToFrame(HelloOf(i)).Ok? ==>
                  Connect(p, i, EncodeFrame(f) + rest, now).0 == Err("expected MSG_SERVER_HELLO")
                  && Connect(p, i, EncodeFrame(HEARTBEAT) + rest, now).0 == Err("expected MSG_SERVER_HELLO"))
  {
    hide ClientMessage, EncodeFrame, ReadAll, ReadFrame, ClientHelloToFrame, HandleServerHello, Finalize;
    var f := BuildClientFinish(p, finished).value;
    SkipsHeartbeat(c, r, f, rest, clock, touches);
    ReadFrameOf(f, rest);
    ReadFrameOf(HEARTBEAT, rest);
  }

  lemma ItemsOfRefusal(c: Cipher.Suite, s: Session, f: Frame, now: int)
    requires EncryptFrame(c, s, f, now).0.Err?
    ensures Wire(c, s, [Send(f, now)]) == [] && Sent(c, s, [Send(f, now)]) == []
    ensures After(c, s, [Send(f, now)]) == EncryptFrame(c, s, f, now).1
  {
    hide EncryptFrame;
  }

  lemma ItemsOfSend(c: Cipher.Suite, s: Session, f: Frame, now: int)
    requires EncryptFrame(c, s, f, now).0.Ok?
    ensures var enc := EncryptFrame(c, s, f, now).0.value;
            && Wire(c, s, [Send(f, now)]) == [enc] && Wire(c, s, [Send(f, now), Beat]) == [enc, HEARTBEAT]
            && EncodeFrames([enc]) == EncodeFrame(enc)
            && EncodeFrames([enc, HEARTBEAT]) == EncodeFrame(enc) + EncodeFrame(HEARTBEAT)
            && Sent(c, s, [Send(f, now)]) == [f] == Sent(c, s, [Send(f, now), Beat])
            && After(c, s, [Send(f, now)]) == EncryptFrame(c, s, f, now).1 == After(c, s, [Send(f, now), Beat])
  {
    hide EncryptFrame;
    assert [Send(f, now), Beat][1..] == [Beat] && [Beat][1..] == [];
    var enc := EncryptFrame(c, s, f, now).0.value;
    assert [enc, HEARTBEAT][1..] == [HEARTBEAT] && [HEARTBEAT][1..] == [];
  }
}
