/** transport/handshake/handshake.go: the encodings of the identity bundle and of the three
    handshake messages.

    `...Onto(x, t)` is the encoding of `x` followed by the bytes `t`. */
module HandshakeMessages {
  import opened Results
  import opened Bytes
  import opened Codec
  import opened Frames
  import opened HandshakeTypes

  const MSG_CLIENT_HELLO: u8 := 1
  const MSG_SERVER_HELLO: u8 := 2
  const MSG_CLIENT_FINISH: u8 := 3
  const PAYLOAD_INIT: u8 := 1
  const PAYLOAD_RESPONSE: u8 := 2
  const PAYLOAD_FINISH: u8 := 3
  const MAX_U16: nat := 0xFFFF
  const ROLE_HINT_DUPLEX: u8 := 3

  // ---- Identity bundle ----

  function BundleOnto(b: IdentityBundle, t: Bytes): Bytes
    requires |b.keyId| <= MAX_U16
  {
    [b.bundleVersion] + ([b.sigAlg] + (U16(|b.keyId|) + (b.keyId + (U64(b.notBeforeUnix)
      + (U64(b.notAfterUnix) + (b.x25519StaticPublic + (b.ed25519Public + (b.signature + t))))))))
  }

  /** IdentityBundle.Encode and ToBytes. */
  function BundleBytes(b: IdentityBundle): (r: Result<Bytes>)
    ensures r.Ok? <==> |b.keyId| <= MAX_U16
    ensures r.Ok? ==> |r.value| == 148 + |b.keyId|
  {
    if |b.keyId| > MAX_U16 then Err("key_id too large") else Ok(BundleOnto(b, []))
  }

  /** DecodeIdentityBundle. */
  function TakeBundle(s: Bytes): Taken<IdentityBundle> {
    var (bundleVersion, s1) :- TakeU8(s);
    var (sigAlg, s2) :- TakeU8(s1);
    var (keyIdLen, s3) :- TakeU16(s2);
    var (keyId, s4) :- TakeBytes(s3, keyIdLen);
    var (notBeforeUnix, s5) :- TakeU64(s4);
    var (notAfterUnix, s6) :- TakeU64(s5);
    var (x25519StaticPublic, s7) :- TakeBytes(s6, 32);
    var (ed25519Public, s8) :- TakeBytes(s7, 32);
    var (signature, s9) :- TakeBytes(s8, 64);
    Ok((IdentityBundle(bundleVersion, sigAlg, keyId, notBeforeUnix, notAfterUnix,
                       x25519StaticPublic, ed25519Public, signature), s9))
  }

  /** IdentityBundleFromBytes. */
  function BundleFromBytes(s: Bytes): Result<IdentityBundle> {
    var (b, t) :- TakeBundle(s);
    if t != [] then Err("trailing bytes in identity bundle") else Ok(b)
  }

  lemma TakeBundleOf(b: IdentityBundle, t: Bytes)
    requires |b.keyId| <= MAX_U16
    ensures TakeBundle(BundleOnto(b, t)) == Ok((b, t))
  {
    hide BigEndian, TakeBytes, TakeU8, TakeU16, TakeU64;
    var r9 := b.signature + t;
    var r8 := b.ed25519Public + r9;
    var r7 := b.x25519StaticPublic + r8;
    var r6 := U64(b.notAfterUnix) + r7;
    var r5 := U64(b.notBeforeUnix) + r6;
    var r4 := b.keyId + r5;
    var r3 := U16(|b.keyId|) + r4;
    var r2 := [b.sigAlg] + r3;
    TakeU8Of(b.bundleVersion, r2);
    TakeU8Of(b.sigAlg, r3);
    TakeU16Of(|b.keyId|, r4);
    TakeBytesOf(b.keyId, r5);
    TakeU64Of(b.notBeforeUnix, r6);
    TakeU64Of(b.notAfterUnix, r7);
    TakeBytesOf(b.x25519StaticPublic, r8);
    TakeBytesOf(b.ed25519Public, r9);
    TakeBytesOf(b.signature, t);
  }

  /** Decoding a bundle consumes exactly the bytes that encoding it again gives. */
  lemma TakeBundleConsumes(s: Bytes)
    requires TakeBundle(s).Ok?
    ensures var (b, t) := TakeBundle(s).value;
            |b.keyId| <= MAX_U16 && s == BundleOnto(b, t)
  {
    hide BigEndian, Value;
  }

  /** Canonical: bytes that decode fully to a bundle are its encoding, so they are unique. */
  lemma BundleCanonical(s: Bytes, b: IdentityBundle)
    ensures BundleFromBytes(s) == Ok(b) <==> BundleBytes(b) == Ok(s)
  {
    if BundleFromBytes(s) == Ok(b) {
      TakeBundleConsumes(s);
    }
    if BundleBytes(b) == Ok(s) {
      TakeBundleOf(b, []);
    }
  }

  // ---- The part common to both hellos ----

  /** Capability bits travel as a 32-bit number. */
  function FromCaps(caps: bv32): u32 {
    caps as int
  }

  function ToCaps(n: u32): bv32 {
    n as bv32
  }

  lemma CapsSurvive(caps: bv32)
    ensures ToCaps(FromCaps(caps)) == caps
  {}

  function HelloOnto(caps: u32, maxPayload: u32, eph: Bytes32, bundle: Bytes, t: Bytes): (b: Bytes)
    requires |bundle| <= MAX_U16
    ensures |b| == 42 + |bundle| + |t|
  {
    U32(caps) + (U32(maxPayload) + (eph + (U16(|bundle|) + (bundle + t))))
  }

  /** The bundle as a hello carries it: within 16 bits of length. */
  function CarriedBundle(b: IdentityBundle): (r: Result<Bytes>)
    ensures r.Ok? <==> |b.keyId| <= MAX_U16 - 148
    ensures r.Ok? ==> r == BundleBytes(b) && |r.value| == 148 + |b.keyId|
  {
    var bundle :- BundleBytes(b);
    if |bundle| > MAX_U16 then Err("identity bundle too large") else Ok(bundle)
  }

  datatype Hello = Hello(caps: u32, maxPayload: u32, eph: Bytes32, bundle: IdentityBundle)

  function TakeHello(s: Bytes): Taken<Hello> {
    var (caps, s1) :- TakeU32(s);
    var (maxPayload, s2) :- TakeU32(s1);
    var (eph, s3) :- TakeBytes(s2, 32);
    var (bundleLen, s4) :- TakeU16(s3);
    var (bundlePayload, s5) :- TakeBytes(s4, bundleLen);
    var bundle :- BundleFromBytes(bundlePayload);
    Ok((Hello(caps, maxPayload, eph, bundle), s5))
  }

  lemma TakeHelloOf(h: Hello, t: Bytes)
    requires CarriedBundle(h.bundle).Ok?
    ensures TakeHello(HelloOnto(h.caps, h.maxPayload, h.eph, CarriedBundle(h.bundle).value, t)) == Ok((h, t))
  {
    hide BigEndian, TakeBytes, TakeU16, TakeU32, BundleOnto, TakeBundle;
    var bundle := CarriedBundle(h.bundle).value;
    var r5 := bundle + t;
    var r4 := U16(|bundle|) + r5;
    var r3 := h.eph + r4;
    TakeU32Of(h.caps, U32(h.maxPayload) + r3);
    TakeU32Of(h.maxPayload, r3);
    TakeBytesOf(h.eph, r4);
    TakeU16Of(|bundle|, r5);
    TakeBytesOf(bundle, t);
    BundleCanonical(bundle, h.bundle);
  }

  // ---- Client hello ----

  function ClientHelloBody(h: ClientHello): (r: Result<Bytes>)
    ensures r.Ok? <==> |h.identityBundle.keyId| <= MAX_U16 - 148
    ensures r.Ok? ==> |r.value| == 190 + |h.identityBundle.keyId|
  {
    var bundle :- CarriedBundle(h.identityBundle);
    Ok(HelloOnto(FromCaps(h.capabilityBits), h.requestedMaxPayload, h.ephPublic, bundle, []))
  }

  function TakeClientHello(s: Bytes): Taken<ClientHello> {
    var (h, t) :- TakeHello(s);
    Ok((ClientHello(ToCaps(h.caps), h.maxPayload, h.eph, h.bundle), t))
  }

  /** The wrapper of a handshake message: kind, a reserved byte, a 16-bit length, the body. */
  function Wrap(kind: u8, body: Bytes): (b: Bytes)
    requires |body| <= MAX_U16
    ensures |b| == 4 + |body|
  {
    [kind] + ([0] + (U16(|body|) + body))
  }

  /** Unwrapping ignores the reserved byte and refuses trailing bytes. */
  function Unwrap(kind: u8, s: Bytes, what: string): Result<Bytes> {
    var (k, s1) :- TakeU8(s);
    if k != kind then Err("invalid payload kind for " + what) else
    var (_, s2) :- TakeU8(s1);
    var (bodyLen, s3) :- TakeU16(s2);
    var (body, s4) :- TakeBytes(s3, bodyLen);
    if s4 != [] then Err("trailing bytes in " + what + " wrapper") else Ok(body)
  }

  /** A wrapped body is recovered, and any bytes after it make unwrapping fail. */
  lemma UnwrapOf(kind: u8, body: Bytes, extra: Bytes, what: string)
    requires |body| <= MAX_U16
    ensures if extra == [] then Unwrap(kind, Wrap(kind, body) + extra, what) == Ok(body)
            else Unwrap(kind, Wrap(kind, body) + extra, what).Err?
  {
    hide BigEndian, TakeBytes, TakeU8, TakeU16;
    var r := body + extra;
    assert Wrap(kind, body) + extra == [kind] + ([0] + (U16(|body|) + r));
    TakeU8Of(kind, [0] + (U16(|body|) + r));
    TakeU8Of(0, U16(|body|) + r);
    TakeU16Of(|body|, r);
    TakeBytesOf(body, extra);
  }

  /** ClientHello.ToFrame. */
  function ClientHelloToFrame(h: ClientHello): Result<Frame> {
    var body :- ClientHelloBody(h);
    if |body| > MAX_U16 then Err("client hello body too large")
    else Ok(NewFrame(MSG_CLIENT_HELLO, 0, Wrap(PAYLOAD_INIT, body)))
  }

  /** ClientHelloFromFrame. */
  function ClientHelloFromFrame(f: Frame): Result<ClientHello> {
    if f.msgType != MSG_CLIENT_HELLO then Err("expected MSG_CLIENT_HELLO") else
    var body :- Unwrap(PAYLOAD_INIT, f.payload, "client hello");
    var (hello, t) :- TakeClientHello(body);
    if t != [] then Err("trailing bytes in client hello body") else Ok(hello)
  }

  /** A client hello can be framed exactly when its key id has at most 65345 bytes; then the
      frame parses back to it, and with bytes appended it does not parse. */
  lemma ClientHelloRoundTrip(h: ClientHello, extra: Bytes)
    ensures ClientHelloToFrame(h).Ok? <==> |h.identityBundle.keyId| <= 65345
    ensures ClientHelloToFrame(h).Ok? ==>
              var f := ClientHelloToFrame(h).value;
              && ClientHelloFromFrame(f) == Ok(h)
              && (extra != [] ==> ClientHelloFromFrame(f.(payload := f.payload + extra)).Err?)
  {
    hide HelloOnto, TakeHello, Wrap, Unwrap, FromCaps, ToCaps;
    CapsSurvive(h.capabilityBits);
    if ClientHelloToFrame(h).Ok? {
      var body := ClientHelloBody(h).value;
      UnwrapOf(PAYLOAD_INIT, body, [], "client hello");
      UnwrapOf(PAYLOAD_INIT, body, extra, "client hello");
      assert Wrap(PAYLOAD_INIT, body) + [] == Wrap(PAYLOAD_INIT, body);
      TakeHelloOf(Hello(FromCaps(h.capabilityBits), h.requestedMaxPayload, h.ephPublic, h.identityBundle), []);
    }
  }

  // ---- Server hello ----

  function ServerHelloBody(h: ServerHello): (r: Result<Bytes>)
    ensures r.Ok? <==> |h.identityBundle.keyId| <= MAX_U16 - 148
    ensures r.Ok? ==> |r.value| == 254 + |h.identityBundle.keyId|
  {
    var bundle :- CarriedBundle(h.identityBundle);
    Ok(HelloOnto(FromCaps(h.acceptedCapabilityBits), h.acceptedMaxPayload, h.ephPublic, bundle, h.transcriptSignature))
  }

  /** ServerHello.transcriptBytesWithoutSignature. */
  function ServerHelloUnsigned(h: ServerHello): (r: Result<Bytes>)
    ensures r.Ok? <==> |h.identityBundle.keyId| <= MAX_U16 - 148
  {
    var bundle :- CarriedBundle(h.identityBundle);
    Ok(HelloOnto(FromCaps(h.acceptedCapabilityBits), h.acceptedMaxPayload, h.ephPublic, bundle, []))
  }

  function TakeServerHello(s: Bytes): Taken<ServerHello> {
    var (h, s1) :- TakeHello(s);
    var (signature, t) :- TakeBytes(s1, 64);
    Ok((ServerHello(ToCaps(h.caps), h.maxPayload, h.eph, h.bundle, signature), t))
  }

  function ServerHelloToFrame(h: ServerHello): Result<Frame> {
    var body :- ServerHelloBody(h);
    if |body| > MAX_U16 then Err("server hello body too large")
    else Ok(NewFrame(MSG_SERVER_HELLO, 0, Wrap(PAYLOAD_RESPONSE, body)))
  }

  function ServerHelloFromFrame(f: Frame): Result<ServerHello> {
    if f.msgType != MSG_SERVER_HELLO then Err("expected MSG_SERVER_HELLO") else
    var body :- Unwrap(PAYLOAD_RESPONSE, f.payload, "server hello");
    var (hello, t) :- TakeServerHello(body);
    if t != [] then Err("trailing bytes in server hello body") else Ok(hello)
  }

  /** The same for a server hello, up to 65281 bytes of key id. */
  lemma ServerHelloRoundTrip(h: ServerHello, extra: Bytes)
    ensures ServerHelloToFrame(h).Ok? <==> |h.identityBundle.keyId| <= 65281
    ensures ServerHelloToFrame(h).Ok? ==>
              var f := ServerHelloToFrame(h).value;
              && ServerHelloFromFrame(f) == Ok(h)
              && (extra != [] ==> ServerHelloFromFrame(f.(payload := f.payload + extra)).Err?)
  {
    hide HelloOnto, TakeHello, Wrap, Unwrap, TakeBytes, FromCaps, ToCaps;
    CapsSurvive(h.acceptedCapabilityBits);
    if ServerHelloToFrame(h).Ok? {
      var body := ServerHelloBody(h).value;
      UnwrapOf(PAYLOAD_RESPONSE, body, [], "server hello");
      UnwrapOf(PAYLOAD_RESPONSE, body, extra, "server hello");
      assert Wrap(PAYLOAD_RESPONSE, body) + [] == Wrap(PAYLOAD_RESPONSE, body);
      TakeHelloOf(Hello(FromCaps(h.acceptedCapabilityBits), h.acceptedMaxPayload, h.ephPublic, h.identityBundle),
                  h.transcriptSignature);
      TakeBytesOf(h.transcriptSignature, []);
      assert h.transcriptSignature + [] == h.transcriptSignature;
    }
  }

  // ---- Client finish ----

  function ClientFinishBody(f: ClientFinish): (b: Bytes)
    ensures |b| == 80
  {
    U64(f.maxRekeyBytes) + (U32(f.maxRekeySeconds) + ([f.roleHint] + ([0] + (U16(0) + f.transcriptSignature))))
  }

  /** The reserved byte and the reserved 16 bits are read and ignored. */
  function TakeClientFinish(s: Bytes): Taken<ClientFinish> {
    var (maxRekeyBytes, s1) :- TakeU64(s);
    var (maxRekeySeconds, s2) :- TakeU32(s1);
    var (roleHint, s3) :- TakeU8(s2);
    if roleHint > 3 then Err("invalid role hint") else
    var (_, s4) :- TakeU8(s3);
    var (_, s5) :- TakeU16(s4);
    var (signature, s6) :- TakeBytes(s5, 64);
    Ok((ClientFinish(maxRekeyBytes, maxRekeySeconds, roleHint, signature), s6))
  }

  function ClientFinishToFrame(f: ClientFinish): Frame {
    NewFrame(MSG_CLIENT_FINISH, 0, Wrap(PAYLOAD_FINISH, ClientFinishBody(f)))
  }

  function ClientFinishFromFrame(f: Frame): Result<ClientFinish> {
    if f.msgType != MSG_CLIENT_FINISH then Err("expected MSG_CLIENT_FINISH") else
    var body :- Unwrap(PAYLOAD_FINISH, f.payload, "client finish");
    var (finish, t) :- TakeClientFinish(body);
    if t != [] then Err("trailing bytes in client finish body") else Ok(finish)
  }

  lemma TakeClientFinishOf(f: ClientFinish)
    ensures if f.roleHint <= 3 then TakeClientFinish(ClientFinishBody(f)) == Ok((f, []))
            else TakeClientFinish(ClientFinishBody(f)).Err?
  {
    hide BigEndian, TakeBytes, TakeU8, TakeU16, TakeU32, TakeU64;
    var r5 := f.transcriptSignature;
    var r4 := U16(0) + r5;
    var r3 := [0] + r4;
    var r2 := [f.roleHint] + r3;
    TakeU64Of(f.maxRekeyBytes, U32(f.maxRekeySeconds) + r2);
    TakeU32Of(f.maxRekeySeconds, r2);
    TakeU8Of(f.roleHint, r3);
    TakeU8Of(0, r4);
    TakeU16Of(0, r5);
    TakeBytesOf(f.transcriptSignature, []);
    assert f.transcriptSignature + [] == f.transcriptSignature;
  }

  /** A client finish always frames, and parses back exactly when its role hint is valid. */
  lemma ClientFinishRoundTrip(f: ClientFinish, extra: Bytes)
    ensures ClientFinishFromFrame(ClientFinishToFrame(f)) == Ok(f) <==> f.roleHint <= 3
    ensures var g := ClientFinishToFrame(f);
            extra != [] ==> ClientFinishFromFrame(g.(payload := g.payload + extra)).Err?
  {
    hide Wrap, Unwrap, ClientFinishBody, TakeClientFinish;
    var body := ClientFinishBody(f);
    UnwrapOf(PAYLOAD_FINISH, body, [], "client finish");
    UnwrapOf(PAYLOAD_FINISH, body, extra, "client finish");
    assert Wrap(PAYLOAD_FINISH, body) + [] == Wrap(PAYLOAD_FINISH, body);
    TakeClientFinishOf(f);
  }

  /** Handshake frames are plain version-1 frames, and reserved bytes are zero. */
  lemma ReservedAreZero(ch: ClientHello, sh: ServerHello, finish: ClientFinish)
    ensures ClientHelloToFrame(ch).Ok? ==> PlainFrame(ClientHelloToFrame(ch).value, 1)
    ensures ServerHelloToFrame(sh).Ok? ==> PlainFrame(ServerHelloToFrame(sh).value, 2)
    ensures var f := ClientFinishToFrame(finish);
            && PlainFrame(f, 3) && |f.payload| == 84
            && f.payload[17] == f.payload[18] == f.payload[19] == 0
  {
    hide HelloOnto, BundleOnto, FromCaps;
    var body := ClientFinishBody(finish);
    assert ClientFinishToFrame(finish).payload[4..] == body;
    assert U16(0) == [0, 0];
    assert body[13] == 0 && body[14..16] == U16(0);
  }

  /** A frame of the kind, version 1 and without flags, whose payload names the same kind and
      leaves its reserved byte zero. */
  predicate PlainFrame(f: Frame, kind: u8) {
    && f.version == 1 && f.msgType == kind && f.flags == 0
    && |f.payload| >= 4 && f.payload[0] == kind && f.payload[1] == 0
  }

  // ---- Transcript ----

  /** The bytes hashed for the transcript, after the fixed prefix. */
  function TranscriptBytes(ch: ClientHello, sh: ServerHello): Result<Bytes> {
    var client :- ClientHelloBody(ch);
    var server :- ServerHelloUnsigned(sh);
    Ok(client + server)
  }

  /** Both hellos but for the signature over them. */
  ghost predicate SameUnsigned(a: ServerHello, b: ServerHello) {
    a == b.(transcriptSignature := a.transcriptSignature)
  }

  lemma HelloOntoTail(caps: u32, maxPayload: u32, eph: Bytes32, bundle: Bytes, t: Bytes)
    requires |bundle| <= MAX_U16
    ensures HelloOnto(caps, maxPayload, eph, bundle, []) + t == HelloOnto(caps, maxPayload, eph, bundle, t)
  {
    hide BigEndian;
    FiveParts(U32(caps), U32(maxPayload), eph, U16(|bundle|), bundle, t);
  }

  lemma FiveParts(a: Bytes, b: Bytes, c: Bytes, d: Bytes, e: Bytes, t: Bytes)
    ensures (a + (b + (c + (d + (e + []))))) + t == a + (b + (c + (d + (e + t))))
  {
    Associates(a, b + (c + (d + (e + []))), t);
    Associates(b, c + (d + (e + [])), t);
    Associates(c, d + (e + []), t);
    Associates(d, e + [], t);
    Associates(e, [], t);
    assert [] + t == t;
  }

  lemma Associates(a: Bytes, b: Bytes, c: Bytes)
    ensures (a + b) + c == a + (b + c)
  {}

  function ClientPart(ch: ClientHello): Hello {
    Hello(FromCaps(ch.capabilityBits), ch.requestedMaxPayload, ch.ephPublic, ch.identityBundle)
  }

  function ServerPart(sh: ServerHello): Hello {
    Hello(FromCaps(sh.acceptedCapabilityBits), sh.acceptedMaxPayload, sh.ephPublic, sh.identityBundle)
  }

  /** The concatenated transcript determines both messages, except the signature over it. */
  lemma TranscriptInjective(ch: ClientHello, sh: ServerHello, ch': ClientHello, sh': ServerHello)
    requires TranscriptBytes(ch, sh).Ok? && TranscriptBytes(ch, sh) == TranscriptBytes(ch', sh')
    ensures ch == ch' && SameUnsigned(sh, sh')
  {
    hide TranscriptBytes, TakeHello, FromCaps, ToCaps;
    TranscriptParses(ch, sh);
    TranscriptParses(ch', sh');
    CapsSurvive(ch.capabilityBits);
    CapsSurvive(ch'.capabilityBits);
    CapsSurvive(sh.acceptedCapabilityBits);
    CapsSurvive(sh'.acceptedCapabilityBits);
  }

  /** Reading the transcript as two hellos gives back what it was made from. */
  lemma TranscriptParses(ch: ClientHello, sh: ServerHello)
    requires TranscriptBytes(ch, sh).Ok?
    ensures var first := TakeHello(TranscriptBytes(ch, sh).value);
            && first.Ok? && first.value.0 == ClientPart(ch)
            && TakeHello(first.value.1) == Ok((ServerPart(sh), []))
  {
    hide HelloOnto, TakeHello, FromCaps;
    var server := ServerHelloUnsigned(sh).value;
    HelloOntoTail(FromCaps(ch.capabilityBits), ch.requestedMaxPayload, ch.ephPublic,
                  CarriedBundle(ch.identityBundle).value, server);
    TakeHelloOf(ClientPart(ch), server);
    TakeHelloOf(ServerPart(sh), []);
  }
}
