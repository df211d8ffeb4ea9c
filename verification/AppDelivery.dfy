/** The application layer on top of the encrypted stream: messages built by a messenger, sent,
    read, parsed and queued, arrive on every channel as they were built. */
module AppDelivery {
  import opened Results
  import opened Bytes
  import opened Frames
  import opened AppMessages
  import opened Inboxes
  import opened Sessions
  import opened Streams
  import Cipher

  /** A call of BuildFrame. */
  datatype Request = Request(channel: u32, msgType: u16, payload: Bytes)

  function Channels(requests: seq<Request>): seq<u32> {
    if requests == [] then []
    else Channels(requests[..|requests| - 1]) + [requests[|requests| - 1].channel]
  }

  /** The messages a new messenger builds for a list of requests. */
  function BuiltMessages(requests: seq<Request>): seq<Message> {
    if requests == [] then [] else
    var front, r := requests[..|requests| - 1], requests[|requests| - 1];
    BuiltMessages(front) + [Message(r.channel, CountOf(Channels(front), r.channel) % TWO_32, r.msgType, r.payload)]
  }

  function FramesOf(ms: seq<Message>): seq<Frame> {
    if ms == [] then [] else FramesOf(ms[..|ms| - 1]) + [MessageToFrame(ms[|ms| - 1])]
  }

  method BuildAll(m: Messenger, requests: seq<Request>) returns (frames: seq<Frame>)
    requires m.Valid() && m.used == []
    modifies m
    ensures m.Valid() && frames == FramesOf(BuiltMessages(requests))
  {
    frames := [];
    for i := 0 to |requests|
      invariant m.Valid() && m.used == Channels(requests[..i])
      invariant frames == FramesOf(BuiltMessages(requests[..i]))
    {
      var r := requests[i];
      var seqNo, f := m.BuildFrame(r.channel, r.msgType, r.payload);
      frames := frames + [f];
      BuiltNext(requests[..i], r);
      assert requests[..i + 1] == requests[..i] + [r];
    }
    assert requests[..|requests|] == requests;
  }

  lemma BuiltNext(front: seq<Request>, r: Request)
    ensures Channels(front + [r]) == Channels(front) + [r.channel]
    ensures var m := Message(r.channel, CountOf(Channels(front), r.channel) % TWO_32, r.msgType, r.payload);
            && BuiltMessages(front + [r]) == BuiltMessages(front) + [m]
            && FramesOf(BuiltMessages(front + [r])) == FramesOf(BuiltMessages(front)) + [MessageToFrame(m)]
  {
    hide CountOf, MessageToFrame;
    var m := Message(r.channel, CountOf(Channels(front), r.channel) % TWO_32, r.msgType, r.payload);
    assert (front + [r])[..|front|] == front;
    assert (BuiltMessages(front) + [m])[..|BuiltMessages(front)|] == BuiltMessages(front);
  }

  // ---- Numbers on a channel ----

  /** The requests for one channel, in order. */
  function Asked(requests: seq<Request>, channel: u32): seq<Request> {
    if requests == [] then [] else
    var front, r := requests[..|requests| - 1], requests[|requests| - 1];
    Asked(front, channel) + if r.channel == channel then [r] else []
  }

  /** On every channel, the k-th message built is the k-th request's, numbered k modulo 2^32. */
  lemma {:induction false} NumberedPerChannel(requests: seq<Request>, channel: u32)
    ensures var ms, asked := OnChannel(BuiltMessages(requests), channel), Asked(requests, channel);
            && |ms| == |asked| == CountOf(Channels(requests), channel)
            && forall k | 0 <= k < |ms| ::
                 ms[k] == Message(channel, k % TWO_32, asked[k].msgType, asked[k].payload)
  {
    hide OnChannel, CountOf;
    if requests == [] {
      NoneOnChannel([], channel);
      NoChannels(channel);
    } else {
      var front, r := requests[..|requests| - 1], requests[|requests| - 1];
      NumberedPerChannel(front, channel);
      assert requests == front + [r];
      NextOnChannel(front, r, channel);
    }
  }

  lemma NoChannels(channel: u32)
    ensures CountOf([], channel) == 0
  {}

  /** One more request adds its message to its own channel and to no other. */
  lemma NextOnChannel(front: seq<Request>, r: Request, channel: u32)
    ensures var m := Message(r.channel, CountOf(Channels(front), r.channel) % TWO_32, r.msgType, r.payload);
            && OnChannel(BuiltMessages(front + [r]), channel)
                 == OnChannel(BuiltMessages(front), channel) + IfOn(m, channel)
            && CountOf(Channels(front + [r]), channel)
                 == CountOf(Channels(front), channel) + if r.channel == channel then 1 else 0
  {
    hide OnChannel, CountOf, BuiltMessages, Channels;
    var m := Message(r.channel, CountOf(Channels(front), r.channel) % TWO_32, r.msgType, r.payload);
    BuiltNext(front, r);
    CountOfNext(Channels(front), r.channel);
    OnChannelSum(BuiltMessages(front), [m], channel);
    OnChannelOfOne(m, channel);
  }

  // ---- Receiving ----

  /** AppMessageHandler.Handle: the message is queued and the session touched. */
  method HandleAppMessage(inbox: Inbox, f: Frame, session: State?, now: int) returns (r: Result<Unit>)
    requires inbox.Valid() && (session != null ==> session.Valid())
    modifies inbox, inbox.data, session
    ensures inbox.Valid() && (inbox.data == old(inbox.data) || fresh(inbox.data))
    ensures match MessageFromFrame(f)
            case Ok(m) => r == Ok(Unit) && inbox.Queue() == old(inbox.Queue()) + [m]
            case Err(e) => r == Err(e) && inbox.Queue() == old(inbox.Queue())
    ensures session != null ==>
              session.Valid() && session.udpReplayWindow == old(session.udpReplayWindow)
              && session.View() == if r.Ok? then old(session.View()).(lastSeen := now) else old(session.View())
  {
    hide MessageFromFrame, Refines;
    var m :- ParseMessage(f);
    inbox.Push(m);
    if session != null {
      session.Touch(now);
    }
    r := Ok(Unit);
  }

  /** The messages queued for a list of frames. */
  function Received(fs: seq<Frame>): seq<Message> {
    if fs == [] then [] else
    Received(fs[..|fs| - 1]) + match MessageFromFrame(fs[|fs| - 1])
                               case Ok(m) => [m]
                               case Err(_) => []
  }

  method HandleAll(inbox: Inbox, fs: seq<Frame>, session: State?, now: int)
    requires inbox.Valid() && (session != null ==> session.Valid())
    modifies inbox, inbox.data, session
    ensures inbox.Valid() && inbox.Queue() == old(inbox.Queue()) + Received(fs)
  {
    hide MessageFromFrame, Refines;
    for i := 0 to |fs|
      invariant inbox.Valid() && (inbox.data == old(inbox.data) || fresh(inbox.data))
      invariant session != null ==> session.Valid() && session.udpReplayWindow == old(session.udpReplayWindow)
      invariant inbox.Queue() == old(inbox.Queue()) + Received(fs[..i])
    {
      assert fs[..i + 1][..i] == fs[..i];
      var _ := HandleAppMessage(inbox, fs[i], session, now);
    }
    assert fs[..|fs|] == fs;
  }

  lemma {:induction false} ReceivesBuilt(ms: seq<Message>)
    requires forall m | m in ms :: |m.payload| <= MAX_APP_PAYLOAD
    ensures Received(FramesOf(ms)) == ms
  {
    hide MessageFromFrame, MessageToFrame;
    if ms != [] {
      var front, m := ms[..|ms| - 1], ms[|ms| - 1];
      ReceivesBuilt(front);
      MessageRoundTrip(m);
      assert FramesOf(ms)[..|FramesOf(front)|] == FramesOf(front);
    }
  }

  // ---- Over the stream ----

  /** The frames a list of items asks to send. */
  function Offered(items: seq<Item>): seq<Frame> {
    if items == [] then []
    else (if items[0].Send? then [items[0].f] else []) + Offered(items[1..])
  }

  /** Unencrypted frames are all sent while there are numbers for them. */
  lemma {:induction false} AllAreSent(c: Cipher.Suite, s: Session, items: seq<Item>)
    requires forall f | f in Offered(items) :: !Cipher.HasEncryptedFlag(f.flags)
    requires s.txSequence + |Offered(items)| <= MAX_U64
    ensures Sent(c, s, items) == Offered(items)
    decreases |items|
  {
    hide EncryptFrame;
    if items != [] {
      assert forall f | f in Offered(items[1..]) :: f in Offered(items);
      if items[0].Send? {
        assert items[0].f in Offered(items);
        IsAccepted(c, s, items[0].f, items[0].now);
      }
      AllAreSent(c, AfterItem(c, s, items[0]), items[1..]);
    }
  }

  lemma IsAccepted(c: Cipher.Suite, s: Session, f: Frame, now: int)
    requires !Cipher.HasEncryptedFlag(f.flags) && s.txSequence < MAX_U64
    ensures EncryptFrame(c, s, f, now).0.Ok? && EncryptFrame(c, s, f, now).1.txSequence == s.txSequence + 1
  {}

  lemma {:induction false} BuiltAreSmall(requests: seq<Request>)
    requires forall r | r in requests :: |r.payload| <= MAX_APP_PAYLOAD
    ensures forall m | m in BuiltMessages(requests) :: |m.payload| <= MAX_APP_PAYLOAD
  {
    if requests != [] {
      BuiltAreSmall(requests[..|requests| - 1]);
    }
  }

  /** Frames of messages within the limit can be sent and delivered. */
  lemma {:induction false} MessageFramesTravel(ms: seq<Message>)
    requires forall m | m in ms :: |m.payload| <= MAX_APP_PAYLOAD
    ensures NoneIsHeartbeat(FramesOf(ms)) && CiphertextsFit(FramesOf(ms))
    ensures forall f | f in FramesOf(ms) :: !Cipher.HasEncryptedFlag(f.flags)
  {
    hide BigEndian;
    if ms != [] {
      MessageFramesTravel(ms[..|ms| - 1]);
      var m := ms[|ms| - 1];
      assert |MessageBytes(m)| == 14 + |m.payload|;
    }
  }

  /** The whole way of application messages: built by a new messenger, sent with heartbeats
      anywhere between, read on the mirrored session, parsed and queued, they arrive as they
      were built; so each channel holds its requests in order, numbered from 0 modulo 2^32. */
  lemma MessagesArrive(c: Cipher.Suite, s: Session, r: Session, requests: seq<Request>, items: seq<Item>,
                       clock: nat -> int, touches: bool, channel: u32)
    requires c.Sound() && Mirrored(s, r) && Offered(items) == FramesOf(BuiltMessages(requests))
    requires forall q | q in requests :: |q.payload| <= MAX_APP_PAYLOAD
    requires s.txSequence + |Offered(items)| <= MAX_U64
    ensures var got := Received(ReadAll(c, r, EncodeFrames(Wire(c, s, items)), clock, touches).0);
            && got == BuiltMessages(requests)
            && var ms, asked := OnChannel(got, channel), Asked(requests, channel);
            && |ms| == |asked|
            && forall k | 0 <= k < |ms| ::
                 ms[k] == Message(channel, k % TWO_32, asked[k].msgType, asked[k].payload)
  {
    hide Cipher.Suite.Sound, Mirrored, ReadAll, Wire, Sent, Received, BuiltMessages, FramesOf, Offered, EncodeFrames,
         OnChannel, Asked, NoneIsHeartbeat, CiphertextsFit;
    BuiltAreSmall(requests);
    MessageFramesTravel(BuiltMessages(requests));
    AllAreSent(c, s, items);
    DeliversExactlyWhen(c, s, r, items, clock, touches);
    ReceivesBuilt(BuiltMessages(requests));
    NumberedPerChannel(requests, channel);
  }
}
