/** transport/frame/frame.go: the outer transport envelope. */
module Frames {
  import opened Results
  import opened Bytes
  import opened Codec

  const VERSION: u8 := 1
  const MSG_HEARTBEAT: u8 := 0x03
  const MAX_PAYLOAD_LEN: nat := 16 * 1024 * 1024

  datatype Frame = Frame(version: u8, msgType: u8, flags: u8, payload: Bytes)

  function NewFrame(msgType: u8, flags: u8, payload: Bytes): Frame {
    Frame(VERSION, msgType, flags, payload)
  }

  /** The seven-byte header: the length field is the payload length cut to 32 bits. */
  function EncodeHeader(f: Frame): (b: Bytes)
    ensures |b| == 7
  {
    [f.version] + [f.msgType] + [f.flags] + U32(|f.payload| % TWO_32)
  }

  function EncodeFrame(f: Frame): Bytes {
    EncodeHeader(f) + f.payload
  }

  /** The bytes of all frames of a list, one after the other. */
  function EncodeFrames(fs: seq<Frame>): Bytes {
    if fs == [] then [] else EncodeFrame(fs[0]) + EncodeFrames(fs[1..])
  }

  /** The header fields: version, message type, flags and announced length. */
  function TakeHeader(s: Bytes): (r: Taken<(u8, u8, u8, u32)>)
    ensures r.Ok? <==> 7 <= |s|
  {
    var (version, s1) :- TakeU8(s);
    var (msgType, s2) :- TakeU8(s1);
    var (flags, s3) :- TakeU8(s2);
    var (length, s4) :- TakeU32(s3);
    Ok(((version, msgType, flags, length), s4))
  }

  /** frame.Decode: checks the version before reading on, then the 16 MiB bound. */
  function DecodeFrame(s: Bytes): Taken<Frame> {
    var (version, s1) :- TakeU8(s);
    if version != VERSION then Err("unsupported frame version") else
    var (msgType, s2) :- TakeU8(s1);
    var (flags, s3) :- TakeU8(s2);
    var (length, s4) :- TakeU32(s3);
    if length > MAX_PAYLOAD_LEN then Err("payload too large") else
    var (payload, s5) :- TakeBytes(s4, length);
    Ok((Frame(version, msgType, flags, payload), s5))
  }

  lemma HeaderTaken(f: Frame, t: Bytes)
    ensures var h := EncodeHeader(f) + t;
            TakeU8(h) == Ok((f.version, h[1..]))
            && TakeU8(h[1..]) == Ok((f.msgType, h[2..]))
            && TakeU8(h[2..]) == Ok((f.flags, h[3..]))
            && TakeU32(h[3..]) == Ok((|f.payload| % TWO_32, t))
  {
    var h := EncodeHeader(f) + t;
    assert h[1..][1..] == h[2..] && h[2..][1..] == h[3..];
    assert h[3..] == U32(|f.payload| % TWO_32) + t;
    TakeU32Of(|f.payload| % TWO_32, t);
  }

  /** Where everything is in an encoded frame. */
  lemma FrameLayout(f: Frame)
    ensures var b := EncodeFrame(f);
            && b[0] == f.version && b[1] == f.msgType && b[2] == f.flags
            && Value(b[3..7]) == |f.payload| % TWO_32 && b[7..] == f.payload
  {
    hide BigEndian, Value;
    Widths();
    ValueOfBigEndian(4, |f.payload| % TWO_32);
    assert EncodeFrame(f)[3..7] == U32(|f.payload| % TWO_32);
  }

  /** What frame.Decode consumed is the encoding of what it returned. */
  lemma DecodeFrameConsumes(s: Bytes)
    requires DecodeFrame(s).Ok?
    ensures var (f, t) := DecodeFrame(s).value;
            s == EncodeFrame(f) + t && f.version == VERSION && |f.payload| <= MAX_PAYLOAD_LEN
  {
    hide U32, TakeU8, TakeU32, TakeBytes;
    var (version, s1) := TakeU8(s).value;
    var (msgType, s2) := TakeU8(s1).value;
    var (flags, s3) := TakeU8(s2).value;
    var (length, s4) := TakeU32(s3).value;
    var (payload, s5) := TakeBytes(s4, length).value;
    var f := Frame(version, msgType, flags, payload);
    assert s == [version] + ([msgType] + ([flags] + (U32(length) + s4)));
    assert s == EncodeHeader(f) + s4;
  }

  /** Encodings of version-1 frames within the bound decode, whatever follows them. */
  lemma DecodeFrameOf(f: Frame, t: Bytes)
    requires f.version == VERSION && |f.payload| <= MAX_PAYLOAD_LEN
    ensures DecodeFrame(EncodeFrame(f) + t) == Ok((f, t))
  {
    hide BigEndian, Value, Pow256, TakeU8, TakeU32;
    var s := EncodeFrame(f) + t;
    assert s == EncodeHeader(f) + (f.payload + t);
    HeaderTaken(f, f.payload + t);
    TakeBytesOf(f.payload, t);
  }

  /** frame.Decode accepts exactly the encodings of version-1 frames within the bound,
      followed by anything, and consumes exactly the encoding. */
  lemma DecodeFrameExactly(s: Bytes, f: Frame, t: Bytes)
    ensures DecodeFrame(s) == Ok((f, t))
       <==> s == EncodeFrame(f) + t && f.version == 1 && |f.payload| <= 16 * 1024 * 1024
  {
    if DecodeFrame(s) == Ok((f, t)) {
      DecodeFrameConsumes(s);
    }
    if s == EncodeFrame(f) + t && f.version == VERSION && |f.payload| <= MAX_PAYLOAD_LEN {
      DecodeFrameOf(f, t);
    }
  }

  /** Two byte strings that decode fully to the same frame are equal. */
  lemma DecodeFrameCanonical(s: Bytes, s': Bytes)
    requires DecodeFrame(s).Ok? && DecodeFrame(s).value.1 == []
    requires DecodeFrame(s') == DecodeFrame(s)
    ensures s == s'
  {
    var f := DecodeFrame(s).value.0;
    DecodeFrameExactly(s, f, []);
    DecodeFrameExactly(s', f, []);
  }

  /** Frame.Encode. */
  method Encode(f: Frame, enc: Encoder)
    modifies enc
    ensures enc.buf == old(enc.buf) + EncodeFrame(f)
  {
    enc.WriteU8(f.version);
    enc.WriteU8(f.msgType);
    enc.WriteU8(f.flags);
    enc.WriteU32(|f.payload| % TWO_32);
    enc.WriteBytes(f.payload);
  }

  /** frame.Decode. */
  method Decode(dec: Decoder) returns (r: Result<Frame>)
    requires dec.Valid()
    modifies dec`pos
    ensures dec.Valid()
    ensures Agrees(DecodeFrame(old(dec.Rest())), r, dec.Rest())
  {
    var version :- dec.ReadU8();
    if version != VERSION {
      return Err("unsupported frame version");
    }
    var msgType :- dec.ReadU8();
    var flags :- dec.ReadU8();
    var payloadLen :- dec.ReadU32();
    if payloadLen > MAX_PAYLOAD_LEN {
      return Err("payload too large");
    }
    var payload :- dec.ReadBytes(payloadLen);
    r := Ok(Frame(version, msgType, flags, payload));
  }
}
