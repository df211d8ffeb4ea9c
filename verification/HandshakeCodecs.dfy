/** transport/handshake/handshake.go: the handshake messages written to an `Encoder` and read
    from a `Decoder`, proved against their encodings. */
module HandshakeCodecs {
  import opened Results
  import opened Bytes
  import opened Codec
  import opened Frames
  import opened HandshakeTypes
  import opened HandshakeMessages

  /** What a writing method appended: the encoding, or nothing when it refused. */
  ghost predicate Appended(spec: Result<Bytes>, r: Result<Unit>, before: Bytes, after: Bytes) {
    match spec
    case Ok(b) => r == Ok(Unit) && after == before + b
    case Err(e) => r == Err(e) && after == before
  }

  method WriteBundle(b: IdentityBundle, enc: Encoder) returns (r: Result<Unit>)
    modifies enc
    ensures Appended(BundleBytes(b), r, old(enc.buf), enc.buf)
  {
    hide BigEndian;
    ghost var start := enc.buf;
    if |b.keyId| > MAX_U16 {
      return Err("key_id too large");
    }
    enc.WriteU8(b.bundleVersion);
    enc.WriteU8(b.sigAlg);
    enc.WriteU16(|b.keyId|);
    enc.WriteBytes(b.keyId);
    ghost var head := enc.buf;
    enc.WriteU64(b.notBeforeUnix);
    enc.WriteU64(b.notAfterUnix);
    enc.WriteBytes(b.x25519StaticPublic);
    enc.WriteBytes(b.ed25519Public);
    enc.WriteBytes(b.signature);
    BundleParts(start, b);
    r := Ok(Unit);
  }

  lemma BundleParts(start: Bytes, b: IdentityBundle)
    requires |b.keyId| <= MAX_U16
    ensures start + [b.bundleVersion] + [b.sigAlg] + U16(|b.keyId|) + b.keyId + U64(b.notBeforeUnix)
            + U64(b.notAfterUnix) + b.x25519StaticPublic + b.ed25519Public + b.signature
         == start + BundleOnto(b, [])
  {
    hide BigEndian;
    NineParts(start, [b.bundleVersion], [b.sigAlg], U16(|b.keyId|), b.keyId, U64(b.notBeforeUnix),
              U64(b.notAfterUnix), b.x25519StaticPublic, b.ed25519Public, b.signature);
  }

  lemma NineParts(s: Bytes, a: Bytes, b: Bytes, c: Bytes, d: Bytes, e: Bytes,
                  f: Bytes, g: Bytes, h: Bytes, i: Bytes)
    ensures s + a + b + c + d + e + f + g + h + i
         == s + (a + (b + (c + (d + (e + (f + (g + (h + (i + [])))))))))
  {
    assert i + [] == i;
    Associates(s + a + b + c + d + e + f + g, h, i);
    Associates(s + a + b + c + d + e + f, g, h + i);
    Associates(s + a + b + c + d + e, f, g + (h + i));
    Associates(s + a + b + c + d, e, f + (g + (h + i)));
    Associates(s + a + b + c, d, e + (f + (g + (h + i))));
    Associates(s + a + b, c, d + (e + (f + (g + (h + i)))));
    Associates(s + a, b, c + (d + (e + (f + (g + (h + i))))));
    Associates(s, a, b + (c + (d + (e + (f + (g + (h + i)))))));
  }

  method ReadBundle(dec: Decoder) returns (r: Result<IdentityBundle>)
    requires dec.Valid()
    modifies dec`pos
    ensures dec.Valid()
    ensures Agrees(TakeBundle(old(dec.Rest())), r, dec.Rest())
  {
    hide TakeBytes, TakeU8, TakeU16, TakeU64, BigEndian;
    var bundleVersion :- dec.ReadU8();
    var sigAlg :- dec.ReadU8();
    var keyIdLen :- dec.ReadU16();
    var keyId :- dec.ReadBytes(keyIdLen);
    var notBeforeUnix :- dec.ReadU64();
    var notAfterUnix :- dec.ReadU64();
    var x25519StaticPublic :- dec.ReadBytes(32);
    var ed25519Public :- dec.ReadBytes(32);
    var signature :- dec.ReadBytes(64);
    r := Ok(IdentityBundle(bundleVersion, sigAlg, keyId, notBeforeUnix, notAfterUnix,
                           x25519StaticPublic, ed25519Public, signature));
  }

  method ReadWholeBundle(payload: Bytes) returns (r: Result<IdentityBundle>)
    ensures r == BundleFromBytes(payload)
  {
    var dec := new Decoder(payload);
    var bundle :- ReadBundle(dec);
    var left := dec.Remaining();
    if left != 0 {
      return Err("trailing bytes in identity bundle");
    }
    r := Ok(bundle);
  }

  /** The fields of a hello; `tail` is empty or the signature of a server hello. */
  method WriteHello(caps: u32, maxPayload: u32, eph: Bytes32, bundle: IdentityBundle, tail: Bytes, enc: Encoder)
    returns (r: Result<Unit>)
    modifies enc
    ensures Appended(match CarriedBundle(bundle)
                     case Ok(b) => Ok(HelloOnto(caps, maxPayload, eph, b, tail))
                     case Err(e) => Err(e), r, old(enc.buf), enc.buf)
  {
    hide BigEndian, BundleOnto;
    ghost var start := enc.buf;
    var bundleEnc := new Encoder();
    var _ :- WriteBundle(bundle, bundleEnc);
    var b := bundleEnc.buf;
    assert [] + BundleBytes(bundle).value == BundleBytes(bundle).value;
    if |b| > MAX_U16 {
      return Err("identity bundle too large");
    }
    enc.WriteU32(caps);
    enc.WriteU32(maxPayload);
    enc.WriteBytes(eph);
    enc.WriteU16(|b|);
    enc.WriteBytes(b);
    enc.WriteBytes(tail);
    SixParts(start, U32(caps), U32(maxPayload), eph, U16(|b|), b, tail);
    r := Ok(Unit);
  }

  lemma SixParts(s: Bytes, a: Bytes, b: Bytes, c: Bytes, d: Bytes, e: Bytes, f: Bytes)
    ensures s + a + b + c + d + e + f == s + (a + (b + (c + (d + (e + f)))))
  {
    Associates(s + a + b + c + d, e, f);
    Associates(s + a + b + c, d, e + f);
    Associates(s + a + b, c, d + (e + f));
    Associates(s + a, b, c + (d + (e + f)));
    Associates(s, a, b + (c + (d + (e + f))));
  }

  method ReadHello(dec: Decoder) returns (r: Result<Hello>)
    requires dec.Valid()
    modifies dec`pos
    ensures dec.Valid()
    ensures Agrees(TakeHello(old(dec.Rest())), r, dec.Rest())
  {
    hide TakeBytes, TakeU16, TakeU32, BigEndian, TakeBundle;
    var caps :- dec.ReadU32();
    var maxPayload :- dec.ReadU32();
    var eph :- dec.ReadBytes(32);
    var bundleLen :- dec.ReadU16();
    var bundlePayload :- dec.ReadBytes(bundleLen);
    var bundle :- ReadWholeBundle(bundlePayload);
    r := Ok(Hello(caps, maxPayload, eph, bundle));
  }

  method WrapBody(kind: u8, body: Bytes) returns (b: Bytes)
    requires |body| <= MAX_U16
    ensures b == Wrap(kind, body)
  {
    hide BigEndian;
    var wrapper := new Encoder();
    wrapper.WriteU8(kind);
    wrapper.WriteU8(0);
    wrapper.WriteU16(|body|);
    wrapper.WriteBytes(body);
    b := wrapper.buf;
    assert b == [kind] + ([0] + (U16(|body|) + body));
  }

  method UnwrapBody(kind: u8, payload: Bytes, what: string) returns (r: Result<Bytes>)
    ensures r == Unwrap(kind, payload, what)
  {
    hide TakeBytes, TakeU8, TakeU16, BigEndian;
    var dec := new Decoder(payload);
    var k :- dec.ReadU8();
    if k != kind {
      return Err("invalid payload kind for " + what);
    }
    var _ :- dec.ReadU8();
    var bodyLen :- dec.ReadU16();
    var body :- dec.ReadBytes(bodyLen);
    var left := dec.Remaining();
    if left != 0 {
      return Err("trailing bytes in " + what + " wrapper");
    }
    r := Ok(body);
  }

  method FrameClientHello(h: ClientHello) returns (r: Result<Frame>)
    ensures r == ClientHelloToFrame(h)
  {
    hide HelloOnto, Wrap, BundleOnto, FromCaps;
    var enc := new Encoder();
    var _ :- WriteHello(FromCaps(h.capabilityBits), h.requestedMaxPayload, h.ephPublic, h.identityBundle, [], enc);
    var body := enc.buf;
    assert [] + ClientHelloBody(h).value == ClientHelloBody(h).value;
    if |body| > MAX_U16 {
      return Err("client hello body too large");
    }
    var payload := WrapBody(PAYLOAD_INIT, body);
    r := Ok(NewFrame(MSG_CLIENT_HELLO, 0, payload));
  }

  method ParseClientHello(f: Frame) returns (r: Result<ClientHello>)
    ensures r == ClientHelloFromFrame(f)
  {
    hide TakeHello, Unwrap, ToCaps;
    if f.msgType != MSG_CLIENT_HELLO {
      return Err("expected MSG_CLIENT_HELLO");
    }
    var body :- UnwrapBody(PAYLOAD_INIT, f.payload, "client hello");
    var dec := new Decoder(body);
    var h :- ReadHello(dec);
    var left := dec.Remaining();
    if left != 0 {
      return Err("trailing bytes in client hello body");
    }
    r := Ok(ClientHello(ToCaps(h.caps), h.maxPayload, h.eph, h.bundle));
  }

  method FrameServerHello(h: ServerHello) returns (r: Result<Frame>)
    ensures r == ServerHelloToFrame(h)
  {
    hide HelloOnto, Wrap, BundleOnto, FromCaps;
    var enc := new Encoder();
    var _ :- WriteHello(FromCaps(h.acceptedCapabilityBits), h.acceptedMaxPayload, h.ephPublic, h.identityBundle,
                        h.transcriptSignature, enc);
    var body := enc.buf;
    assert [] + ServerHelloBody(h).value == ServerHelloBody(h).value;
    if |body| > MAX_U16 {
      return Err("server hello body too large");
    }
    var payload := WrapBody(PAYLOAD_RESPONSE, body);
    r := Ok(NewFrame(MSG_SERVER_HELLO, 0, payload));
  }

  method ParseServerHello(f: Frame) returns (r: Result<ServerHello>)
    ensures r == ServerHelloFromFrame(f)
  {
    hide TakeHello, Unwrap, ToCaps, TakeBytes;
    if f.msgType != MSG_SERVER_HELLO {
      return Err("expected MSG_SERVER_HELLO");
    }
    var body :- UnwrapBody(PAYLOAD_RESPONSE, f.payload, "server hello");
    var dec := new Decoder(body);
    var h :- ReadHello(dec);
    var signature :- dec.ReadBytes(64);
    var left := dec.Remaining();
    if left != 0 {
      return Err("trailing bytes in server hello body");
    }
    r := Ok(ServerHello(ToCaps(h.caps), h.maxPayload, h.eph, h.bundle, signature));
  }

  method FrameClientFinish(f: ClientFinish) returns (r: Frame)
    ensures r == ClientFinishToFrame(f)
  {
    hide BigEndian, Wrap;
    var enc := new Encoder();
    enc.WriteU64(f.maxRekeyBytes);
    enc.WriteU32(f.maxRekeySeconds);
    enc.WriteU8(f.roleHint);
    enc.WriteU8(0);
    enc.WriteU16(0);
    enc.WriteBytes(f.transcriptSignature);
    SixParts([], U64(f.maxRekeyBytes), U32(f.maxRekeySeconds), [f.roleHint], [0], U16(0), f.transcriptSignature);
    assert [] + ClientFinishBody(f) == ClientFinishBody(f);
    var payload := WrapBody(PAYLOAD_FINISH, enc.buf);
    r := NewFrame(MSG_CLIENT_FINISH, 0, payload);
  }

  method ParseClientFinish(f: Frame) returns (r: Result<ClientFinish>)
    ensures r == ClientFinishFromFrame(f)
  {
    hide TakeBytes, TakeU8, TakeU16, TakeU32, TakeU64, Unwrap, BigEndian;
    if f.msgType != MSG_CLIENT_FINISH {
      return Err("expected MSG_CLIENT_FINISH");
    }
    var body :- UnwrapBody(PAYLOAD_FINISH, f.payload, "client finish");
    var dec := new Decoder(body);
    var maxRekeyBytes :- dec.ReadU64();
    var maxRekeySeconds :- dec.ReadU32();
    var roleHint :- dec.ReadU8();
    if roleHint > 3 {
      return Err("invalid role hint");
    }
    var _ :- dec.ReadU8();
    var _ :- dec.ReadU16();
    var signature :- dec.ReadBytes(64);
    var left := dec.Remaining();
    if left != 0 {
      return Err("trailing bytes in client finish body");
    }
    r := Ok(ClientFinish(maxRekeyBytes, maxRekeySeconds, roleHint, signature));
  }
}
