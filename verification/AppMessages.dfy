/** app/app.go: application messages, acknowledgements and chunks, nested into frames. */
module AppMessages {
  import opened Results
  import opened Bytes
  import opened Codec
  import opened Frames

  const MSG_APP_MESSAGE: u8 := 0x10
  const APP_TYPE_ACK: u16 := 0x02
  const APP_TYPE_NAK: u16 := 0x03
  const APP_TYPE_CHUNK: u16 := 0x10
  const MAX_APP_PAYLOAD: nat := 8 * 1024 * 1024

  datatype Message = Message(channelId: u32, seqNo: u32, msgType: u16, payload: Bytes)
  datatype Ack = Ack(channelId: u32, ackedSeq: u32, isNak: bool)
  datatype Chunk = Chunk(channelId: u32, seqNo: u32, chunkIndex: u32, chunkTotal: u32, payload: Bytes)

  /** The encoding of a message followed by `t`; the length field is cut to 32 bits. */
  function MessageOnto(m: Message, t: Bytes): Bytes {
    U32(m.channelId) + (U32(m.seqNo) + (U16(m.msgType) + (U32(|m.payload| % TWO_32) + (m.payload + t))))
  }

  function MessageBytes(m: Message): Bytes {
    MessageOnto(m, [])
  }

  /** app.Decode: bytes after the payload are left alone. */
  function TakeMessage(s: Bytes): Taken<Message> {
    var (channelId, s1) :- TakeU32(s);
    var (seqNo, s2) :- TakeU32(s1);
    var (msgType, s3) :- TakeU16(s2);
    var (length, s4) :- TakeU32(s3);
    if length > MAX_APP_PAYLOAD then Err("app payload too large") else
    var (payload, t) :- TakeBytes(s4, length);
    Ok((Message(channelId, seqNo, msgType, payload), t))
  }

  lemma TakeMessageOf(m: Message, t: Bytes)
    requires |m.payload| <= MAX_APP_PAYLOAD
    ensures TakeMessage(MessageOnto(m, t)) == Ok((m, t))
  {
    hide BigEndian, TakeBytes, TakeU16, TakeU32;
    var r4 := m.payload + t;
    var r3 := U32(|m.payload| % TWO_32) + r4;
    var r2 := U16(m.msgType) + r3;
    TakeU32Of(m.channelId, U32(m.seqNo) + r2);
    TakeU32Of(m.seqNo, r2);
    TakeU16Of(m.msgType, r3);
    TakeU32Of(|m.payload| % TWO_32, r4);
    TakeBytesOf(m.payload, t);
  }

  lemma TakeMessageConsumes(s: Bytes)
    requires TakeMessage(s).Ok?
    ensures var (m, t) := TakeMessage(s).value;
            |m.payload| <= MAX_APP_PAYLOAD && s == MessageOnto(m, t)
  {
    hide BigEndian, Value, TakeBytes, TakeU16, TakeU32;
  }

  /** Decoding accepts exactly the encodings within 8 MiB, followed by anything, and consumes
      exactly the encoding; so bytes that decode fully are canonical. */
  lemma TakeMessageExactly(s: Bytes, m: Message, t: Bytes)
    ensures TakeMessage(s) == Ok((m, t)) <==> s == MessageOnto(m, t) && |m.payload| <= 8 * 1024 * 1024
  {
    hide TakeMessage, MessageOnto;
    if TakeMessage(s) == Ok((m, t)) {
      TakeMessageConsumes(s);
    }
    if s == MessageOnto(m, t) && |m.payload| <= MAX_APP_PAYLOAD {
      TakeMessageOf(m, t);
    }
  }

  function MessageToFrame(m: Message): Frame {
    NewFrame(MSG_APP_MESSAGE, 0, MessageBytes(m))
  }

  function MessageFromFrame(f: Frame): Result<Message> {
    if f.msgType != MSG_APP_MESSAGE then Err("expected APP_MESSAGE frame") else
    var (m, _) :- TakeMessage(f.payload);
    Ok(m)
  }

  lemma MessageRoundTrip(m: Message)
    requires |m.payload| <= MAX_APP_PAYLOAD
    ensures MessageFromFrame(MessageToFrame(m)) == Ok(m)
    ensures var f := MessageToFrame(m);
            f.version == 1 && f.msgType == 0x10 && f.flags == 0
  {
    hide MessageOnto, TakeMessage;
    TakeMessageOf(m, []);
  }

  function AckToMessage(a: Ack, seqNo: u32): Message {
    Message(a.channelId, seqNo, if a.isNak then APP_TYPE_NAK else APP_TYPE_ACK, U32(a.ackedSeq))
  }

  function AckFromMessage(m: Message): Result<Ack> {
    if m.msgType != APP_TYPE_ACK && m.msgType != APP_TYPE_NAK then Err("not an ACK/NAK message") else
    var (acked, _) :- TakeU32(m.payload);
    Ok(Ack(m.channelId, acked, m.msgType == APP_TYPE_NAK))
  }

  function ChunkOnto(c: Chunk, t: Bytes): Bytes {
    U32(c.chunkIndex) + (U32(c.chunkTotal) + (U32(|c.payload| % TWO_32) + (c.payload + t)))
  }

  function ChunkToMessage(c: Chunk): Message {
    Message(c.channelId, c.seqNo, APP_TYPE_CHUNK, ChunkOnto(c, []))
  }

  function ChunkFromMessage(m: Message): (r: Result<Chunk>)
    ensures r.Ok? ==> |r.value.payload| + 12 <= |m.payload|
  {
    if m.msgType != APP_TYPE_CHUNK then Err("not a CHUNK message") else
    var (idx, s1) :- TakeU32(m.payload);
    var (total, s2) :- TakeU32(s1);
    var (length, s3) :- TakeU32(s2);
    var (payload, _) :- TakeBytes(s3, length);
    Ok(Chunk(m.channelId, m.seqNo, idx, total, payload))
  }

  /** From a frame down to an acknowledgement or a chunk. */
  function AckFromFrame(f: Frame): Result<Ack> {
    var m :- MessageFromFrame(f);
    AckFromMessage(m)
  }

  function ChunkFromFrame(f: Frame): Result<Chunk> {
    var m :- MessageFromFrame(f);
    ChunkFromMessage(m)
  }

  /** Every acknowledgement survives the nesting, and so do its own sequence number and the
      distinction of the two kinds. */
  lemma AckRoundTrip(a: Ack, seqNo: u32)
    ensures AckFromFrame(MessageToFrame(AckToMessage(a, seqNo))) == Ok(a)
    ensures var m := MessageFromFrame(MessageToFrame(AckToMessage(a, seqNo)));
            m.Ok? && m.value.seqNo == seqNo && m.value.msgType == if a.isNak then 0x03 else 0x02
  {
    hide BigEndian, MessageFromFrame, MessageToFrame;
    MessageRoundTrip(AckToMessage(a, seqNo));
    TakeU32Of(a.ackedSeq, []);
    assert U32(a.ackedSeq) + [] == U32(a.ackedSeq);
  }

  lemma ChunkParses(c: Chunk)
    requires |c.payload| < TWO_32
    ensures ChunkFromMessage(ChunkToMessage(c)) == Ok(c)
  {
    hide BigEndian, TakeBytes, TakeU32;
    var r3 := c.payload + [];
    var r2 := U32(|c.payload| % TWO_32) + r3;
    TakeU32Of(c.chunkIndex, U32(c.chunkTotal) + r2);
    TakeU32Of(c.chunkTotal, r2);
    TakeU32Of(|c.payload| % TWO_32, r3);
    TakeBytesOf(c.payload, []);
  }

  /** A chunk survives the nesting exactly when its payload is at most 8 MiB minus 12 bytes:
      a longer one is refused or, past 32 bits of length, cut. */
  lemma ChunkRoundTrip(c: Chunk)
    ensures ChunkFromFrame(MessageToFrame(ChunkToMessage(c))) == Ok(c)
       <==> |c.payload| <= 8 * 1024 * 1024 - 12
  {
    hide BigEndian, MessageOnto, TakeMessage;
    var m := ChunkToMessage(c);
    assert |m.payload| == |c.payload| + 12;
    if |c.payload| <= MAX_APP_PAYLOAD - 12 {
      MessageRoundTrip(m);
      ChunkParses(c);
    } else if MessageFromFrame(MessageToFrame(m)).Ok? {
      TakeMessageConsumes(MessageToFrame(m).payload);
    }
  }

  // ---- The same with the writer and the reader ----

  method WriteMessage(m: Message, enc: Encoder)
    modifies enc
    ensures enc.buf == old(enc.buf) + MessageBytes(m)
  {
    hide BigEndian;
    ghost var start := enc.buf;
    enc.WriteU32(m.channelId);
    enc.WriteU32(m.seqNo);
    enc.WriteU16(m.msgType);
    enc.WriteU32(|m.payload| % TWO_32);
    enc.WriteBytes(m.payload);
    ConcatenateFive(start, U32(m.channelId), U32(m.seqNo), U16(m.msgType), U32(|m.payload| % TWO_32), m.payload);
  }

  lemma ConcatenateFive(s: Bytes, a: Bytes, b: Bytes, c: Bytes, d: Bytes, e: Bytes)
    ensures s + a + b + c + d + e == s + (a + (b + (c + (d + (e + [])))))
  {
    assert e + [] == e;
    assert (s + a + b + c) + d + e == (s + a + b + c) + (d + e);
    assert (s + a + b) + c + (d + e) == (s + a + b) + (c + (d + e));
    assert (s + a) + b + (c + (d + e)) == (s + a) + (b + (c + (d + e)));
  }

  method ReadMessage(dec: Decoder) returns (r: Result<Message>)
    requires dec.Valid()
    modifies dec`pos
    ensures dec.Valid()
    ensures Agrees(TakeMessage(old(dec.Rest())), r, dec.Rest())
  {
    hide BigEndian, TakeBytes, TakeU16, TakeU32;
    var channelId :- dec.ReadU32();
    var seqNo :- dec.ReadU32();
    var msgType :- dec.ReadU16();
    var length :- dec.ReadU32();
    if length > MAX_APP_PAYLOAD {
      return Err("app payload too large");
    }
    var payload :- dec.ReadBytes(length);
    r := Ok(Message(channelId, seqNo, msgType, payload));
  }

  method ParseMessage(f: Frame) returns (r: Result<Message>)
    ensures r == MessageFromFrame(f)
  {
    hide TakeMessage;
    if f.msgType != MSG_APP_MESSAGE {
      return Err("expected APP_MESSAGE frame");
    }
    var dec := new Decoder(f.payload);
    r := ReadMessage(dec);
  }

  method ParseChunk(m: Message) returns (r: Result<Chunk>)
    ensures r == ChunkFromMessage(m)
  {
    hide BigEndian, TakeBytes, TakeU32;
    if m.msgType != APP_TYPE_CHUNK {
      return Err("not a CHUNK message");
    }
    var dec := new Decoder(m.payload);
    var idx :- dec.ReadU32();
    var total :- dec.ReadU32();
    var length :- dec.ReadU32();
    var payload :- dec.ReadBytes(length);
    r := Ok(Chunk(m.channelId, m.seqNo, idx, total, payload));
  }
}
