/** transport/handshake/handshake.go: identities, the transcript, and the two state machines.

    `Party` is the state of an initiator or a responder as a value; the classes hold the
    same fields and update the stored hellos in place. Ephemeral keys and the time are
    arguments. */
module Handshakes {
  import opened Results
  import opened Bytes
  import opened Frames
  import opened HandshakeTypes
  import opened HandshakeMessages
  import opened HandshakeCodecs
  import opened Cipher

  /** The library primitives: SHA-256, HKDF cut to 64 bytes, X25519 and Ed25519. */
  datatype Primitives = Primitives(
    sha256: Bytes -> Bytes32,
    hkdf: (Bytes, Bytes, Bytes) -> Bytes64,         // input key material, salt, info
    x25519: (Bytes32, Bytes32) -> Option<Bytes32>,  // private key, peer's public key
    x25519Public: Bytes32 -> Bytes32,
    edPublic: Bytes -> Bytes32,
    sign: (Bytes, Bytes) -> Bytes64,                // private key, message
    verify: (Bytes32, Bytes, Bytes64) -> bool)
  {
    /** Diffie-Hellman commutes, failures included (section 6.1 of RFC 7748). */
    ghost predicate DhCommutes() {
      forall a: Bytes32, b: Bytes32 {:trigger x25519(a, x25519Public(b))} ::
        x25519(a, x25519Public(b)) == x25519(b, x25519Public(a))
    }

    /** What was signed verifies (section 5.1 of RFC 8032). */
    ghost predicate SignaturesVerify() {
      forall k: Bytes, m: Bytes {:trigger sign(k, m)} :: verify(edPublic(k), m, sign(k, m))
    }
  }

  datatype Identity = Identity(
    ed25519Private: Bytes,
    ed25519Public: Bytes32,
    x25519Private: Bytes32,
    x25519Public: Bytes32)

  const BUNDLE_VERSION: u8 := 1
  const SIG_ALG_ED25519: u8 := 1

  const BUNDLE_PREFIX := Ascii("SHADOWLARK_ID_BUNDLE")
  const SERVER_PREFIX := Ascii("SHADOWLARK_SERVER_HELLO_SIG")
  const CLIENT_PREFIX := Ascii("SHADOWLARK_CLIENT_FINISH_SIG")
  const TRANSCRIPT_PREFIX := Ascii("SHADOWLARK_XX_TRANSCRIPT")
  const SALT_PREFIX := Ascii("SHADOWLARK_HANDSHAKE_SALT")
  const KEYS_INFO := Ascii("SHADOWLARK_TRANSPORT_KEYS")
  const SESSION_PREFIX := Ascii("SHADOWLARK_SESSION_ID")

  function SignEd25519(p: Primitives, id: Identity, message: Bytes): Result<Bytes64> {
    if id.ed25519Private == [] then Err("missing ed25519 private key")
    else Ok(p.sign(id.ed25519Private, message))
  }

  /** IdentityBundle.signatureInput. */
  function BundleMessage(b: IdentityBundle): Result<Bytes> {
    if |b.keyId| > MAX_U16 then Err("key_id too large")
    else Ok(BUNDLE_PREFIX + [b.bundleVersion] + [b.sigAlg] + U16(|b.keyId|) + b.keyId
            + U64(b.notBeforeUnix) + U64(b.notAfterUnix) + b.x25519StaticPublic + b.ed25519Public)
  }

  /** A key pair set up from its private keys. */
  function IdentityFrom(p: Primitives, ed25519Private: Bytes, x25519Private: Bytes32): Identity {
    Identity(ed25519Private, p.edPublic(ed25519Private), x25519Private, p.x25519Public(x25519Private))
  }

  /** The bundle is signed with its signature field still zero. */
  function SignedIdentityBundle(p: Primitives, keyId: Bytes, notBeforeUnix: u64, notAfterUnix: u64,
                                id: Identity): Result<IdentityBundle> {
    var bundle := IdentityBundle(BUNDLE_VERSION, SIG_ALG_ED25519, keyId, notBeforeUnix, notAfterUnix,
                                 id.x25519Public, id.ed25519Public, NoSignature());
    var message :- BundleMessage(bundle);
    var signature :- SignEd25519(p, id, message);
    Ok(bundle.(signature := signature))
  }

  /** IdentityBundle.Validate against a set of pinned keys. */
  function Validate(p: Primitives, b: IdentityBundle, pinned: set<Bytes32>, now: u64): Result<Unit> {
    if b.bundleVersion != BUNDLE_VERSION then Err("unsupported bundle version")
    else if b.sigAlg != SIG_ALG_ED25519 then Err("unsupported signature algorithm")
    else if now < b.notBeforeUnix || now > b.notAfterUnix then Err("identity bundle outside validity window")
    else if b.ed25519Public !in pinned then Err("peer identity is not trusted")
    else
      var message :- BundleMessage(b);
      if !p.verify(b.ed25519Public, message, b.signature) then
        Err("identity bundle signature verification failed")
      else Ok(Unit)
  }

  /** What is hashed for the transcript. */
  function HashInput(ch: ClientHello, sh: ServerHello): Result<Bytes> {
    var transcript :- TranscriptBytes(ch, sh);
    Ok(TRANSCRIPT_PREFIX + transcript)
  }

  function TranscriptHash(p: Primitives, ch: ClientHello, sh: ServerHello): Result<Bytes32> {
    var input :- HashInput(ch, sh);
    Ok(p.sha256(input))
  }

  function SignatureMessage(prefix: Bytes, hash: Bytes32, clientEph: Bytes32, serverEph: Bytes32,
                            clientStatic: Bytes32, serverStatic: Bytes32): Bytes {
    prefix + hash + (clientEph + serverEph + clientStatic + serverStatic)
  }

  /** The message the responder signs over a pair of hellos, and the one the initiator signs. */
  function ServerMessage(p: Primitives, ch: ClientHello, sh: ServerHello,
                         clientStatic: Bytes32, serverStatic: Bytes32): Result<Bytes> {
    var hash :- TranscriptHash(p, ch, sh);
    Ok(SignatureMessage(SERVER_PREFIX, hash, ch.ephPublic, sh.ephPublic, clientStatic, serverStatic))
  }

  function ClientMessage(p: Primitives, ch: ClientHello, sh: ServerHello,
                         clientStatic: Bytes32, serverStatic: Bytes32): Result<Bytes> {
    var hash :- TranscriptHash(p, ch, sh);
    Ok(SignatureMessage(CLIENT_PREFIX, hash, ch.ephPublic, sh.ephPublic, clientStatic, serverStatic))
  }

  datatype TransportKeys = TransportKeys(sessionId: u64, txKey: Bytes32, rxKey: Bytes32)

  function SessionIdOf(p: Primitives, hash: Bytes32): (id: u64)
    ensures id != 0
  {
    var digest := p.sha256(SESSION_PREFIX + hash)[..8];
    BigEndianOfValue(digest); Widths();
    var id := Value(digest);
    if id == 0 then 1 else id
  }

  function DeriveTransportKeys(p: Primitives, role: EndpointRole, hash: Bytes32,
                               ee: Bytes32, es: Bytes32, se: Bytes32, ss: Bytes32): TransportKeys {
    var keys := p.hkdf(ee + es + se + ss, p.sha256(SALT_PREFIX + hash), KEYS_INFO);
    var initiatorToResponder, responderToInitiator := keys[0..32], keys[32..64];
    if role == Initiator then TransportKeys(SessionIdOf(p, hash), initiatorToResponder, responderToInitiator)
    else TransportKeys(SessionIdOf(p, hash), responderToInitiator, initiatorToResponder)
  }

  function X25519Shared(p: Primitives, private: Bytes32, peer: Bytes32): Result<Bytes32> {
    match p.x25519(private, peer)
    case None => Err("x25519: bad input point: low order point")
    case Some(shared) => Ok(shared)
  }

  // ---- The two state machines ----

  datatype Party = Party(
    identity: Identity,
    bundle: IdentityBundle,
    pinned: set<Bytes32>,
    policy: HandshakePolicy,
    ephPrivate: Bytes32,
    ephPublic: Bytes32,
    clientHello: Option<ClientHello>,
    serverHello: Option<ServerHello>)

  function NewParty(p: Primitives, id: Identity, bundle: IdentityBundle, pinned: set<Bytes32>,
                    policy: HandshakePolicy, ephPrivate: Bytes32): Party {
    Party(id, bundle, pinned, policy, ephPrivate, p.x25519Public(ephPrivate), None, None)
  }

  /** The capability bits two sides have in common. */
  function Common(a: bv32, b: bv32): bv32 {
    a & b
  }

  function HelloOf(s: Party): ClientHello {
    ClientHello(s.policy.capabilityBits, s.policy.maxPayload, s.ephPublic, s.bundle)
  }

  /** The hello is stored even when it is too large to be framed. */
  function BuildClientHello(s: Party): (Result<Frame>, Party) {
    (ClientHelloToFrame(HelloOf(s)), s.(clientHello := Some(HelloOf(s))))
  }

  /** The checks of HandleServerHello, in order; a passing hello is returned. */
  function CheckServerHello(p: Primitives, s: Party, f: Frame, now: u64): Result<ServerHello> {
    var sh :- ServerHelloFromFrame(f);
    var _ :- Validate(p, sh.identityBundle, s.pinned, now);
    if s.clientHello.None? then Err("client hello not built") else
    var ch := s.clientHello.value;
    if Common(ch.capabilityBits, sh.acceptedCapabilityBits) == 0 then Err("no common capability bits")
    else if sh.acceptedMaxPayload == 0 || sh.acceptedMaxPayload > s.policy.maxPayload then
      Err("invalid accepted max payload")
    else
      var message :- ServerMessage(p, ch, sh, s.bundle.x25519StaticPublic, sh.identityBundle.x25519StaticPublic);
      if !p.verify(sh.identityBundle.ed25519Public, message, sh.transcriptSignature) then
        Err("server transcript signature verification failed")
      else Ok(sh)
  }

  function HandleServerHello(p: Primitives, s: Party, f: Frame, now: u64): (Result<Unit>, Party) {
    match CheckServerHello(p, s, f, now)
    case Err(e) => (Err(e), s)
    case Ok(sh) => (Ok(Unit), s.(serverHello := Some(sh)))
  }

  function BuildClientFinish(p: Primitives, s: Party): Result<Frame> {
    if s.clientHello.None? then Err("client hello not built")
    else if s.serverHello.None? then Err("server hello not processed")
    else
      var ch, sh := s.clientHello.value, s.serverHello.value;
      var message :- ClientMessage(p, ch, sh, s.bundle.x25519StaticPublic, sh.identityBundle.x25519StaticPublic);
      var signature :- SignEd25519(p, s.identity, message);
      Ok(ClientFinishToFrame(ClientFinish(s.policy.maxRekeyBytes, s.policy.maxRekeySeconds,
                                          ROLE_HINT_DUPLEX, signature)))
  }

  /** Initiator Finalize: four shared secrets, each from the initiator's side. */
  function Finalize(p: Primitives, s: Party): Result<HandshakeOutput> {
    if s.clientHello.None? then Err("client hello missing")
    else if s.serverHello.None? then Err("server hello missing")
    else
      var ch, sh := s.clientHello.value, s.serverHello.value;
      var hash :- TranscriptHash(p, ch, sh);
      var ee :- X25519Shared(p, s.ephPrivate, sh.ephPublic);
      var es :- X25519Shared(p, s.ephPrivate, sh.identityBundle.x25519StaticPublic);
      var se :- X25519Shared(p, s.identity.x25519Private, sh.ephPublic);
      var ss :- X25519Shared(p, s.identity.x25519Private, sh.identityBundle.x25519StaticPublic);
      var keys := DeriveTransportKeys(p, Initiator, hash, ee, es, se, ss);
      Ok(HandshakeOutput(Initiator, keys.sessionId, keys.txKey, keys.rxKey, sh.identityBundle,
                         Common(ch.capabilityBits, sh.acceptedCapabilityBits), sh.acceptedMaxPayload,
                         s.policy.maxRekeyBytes, s.policy.maxRekeySeconds))
  }

  /** The smaller of the requested and the allowed payload size. */
  function AcceptedMaxPayload(ch: ClientHello, policy: HandshakePolicy): u32 {
    if ch.requestedMaxPayload > policy.maxPayload then policy.maxPayload else ch.requestedMaxPayload
  }

  /** The hello a responder answers with, unsigned. */
  function AnswerTo(s: Party, ch: ClientHello, signature: Bytes64): ServerHello {
    ServerHello(Common(ch.capabilityBits, s.policy.capabilityBits), AcceptedMaxPayload(ch, s.policy),
                s.ephPublic, s.bundle, signature)
  }

  /** The zero signature an unsigned hello holds. */
  function NoSignature(): Bytes64 {
    seq(64, i => 0)
  }

  /** The checks of HandleClientHello and the signed answer. */
  function AnswerClientHello(p: Primitives, s: Party, f: Frame, now: u64): Result<(ClientHello, ServerHello)> {
    var ch :- ClientHelloFromFrame(f);
    var _ :- Validate(p, ch.identityBundle, s.pinned, now);
    if Common(ch.capabilityBits, s.policy.capabilityBits) == 0 then Err("no common capability bits")
    else if AcceptedMaxPayload(ch, s.policy) == 0 then Err("invalid negotiated max payload")
    else
      var sh := AnswerTo(s, ch, NoSignature());
      var message :- ServerMessage(p, ch, sh, ch.identityBundle.x25519StaticPublic, s.bundle.x25519StaticPublic);
      var signature :- SignEd25519(p, s.identity, message);
      Ok((ch, AnswerTo(s, ch, signature)))
  }

  /** Both hellos are stored even when the answer is too large to be framed. */
  function HandleClientHello(p: Primitives, s: Party, f: Frame, now: u64): (Result<Frame>, Party) {
    match AnswerClientHello(p, s, f, now)
    case Err(e) => (Err(e), s)
    case Ok((ch, sh)) => (ServerHelloToFrame(sh), s.(clientHello := Some(ch), serverHello := Some(sh)))
  }

  /** Responder HandleClientFinish: the signature check, then the secrets from its side. */
  function HandleClientFinish(p: Primitives, s: Party, f: Frame): Result<HandshakeOutput> {
    var finish :- ClientFinishFromFrame(f);
    if s.clientHello.None? then Err("client hello missing")
    else if s.serverHello.None? then Err("server hello missing")
    else
      var ch, sh := s.clientHello.value, s.serverHello.value;
      var hash :- TranscriptHash(p, ch, sh);
      var message :- ClientMessage(p, ch, sh, ch.identityBundle.x25519StaticPublic, s.bundle.x25519StaticPublic);
      if !p.verify(ch.identityBundle.ed25519Public, message, finish.transcriptSignature) then
        Err("client transcript signature verification failed")
      else
        var ee :- X25519Shared(p, s.ephPrivate, ch.ephPublic);
        var es :- X25519Shared(p, s.identity.x25519Private, ch.ephPublic);
        var se :- X25519Shared(p, s.ephPrivate, ch.identityBundle.x25519StaticPublic);
        var ss :- X25519Shared(p, s.identity.x25519Private, ch.identityBundle.x25519StaticPublic);
        var keys := DeriveTransportKeys(p, Responder, hash, ee, es, se, ss);
        Ok(HandshakeOutput(Responder, keys.sessionId, keys.txKey, keys.rxKey, ch.identityBundle,
                           sh.acceptedCapabilityBits, sh.acceptedMaxPayload,
                           finish.maxRekeyBytes, finish.maxRekeySeconds))
  }

  // ---- The same state updated in place ----

  class TrustStore {
    var pinned: set<Bytes32>

    constructor ()
      ensures pinned == {}
    {
      pinned := {};
    }

    method Pin(key: Bytes32)
      modifies this
      ensures pinned == old(pinned) + {key}
    {
      pinned := pinned + {key};
    }
  }

  class SecureInitiator {
    const localIdentity: Identity
    const localBundle: IdentityBundle
    const trustStore: TrustStore
    const policy: HandshakePolicy
    const ephPrivate: Bytes32
    const ephPublic: Bytes32
    var clientHello: Option<ClientHello>
    var serverHello: Option<ServerHello>

    ghost function View(): Party
      reads this, trustStore
    {
      Party(localIdentity, localBundle, trustStore.pinned, policy, ephPrivate, ephPublic,
            clientHello, serverHello)
    }

    constructor (p: Primitives, id: Identity, bundle: IdentityBundle, trust: TrustStore,
                 policy: HandshakePolicy, ephPrivate: Bytes32)
      ensures View() == NewParty(p, id, bundle, trust.pinned, policy, ephPrivate)
      ensures trustStore == trust
    {
      localIdentity, localBundle, trustStore := id, bundle, trust;
      this.policy, this.ephPrivate := policy, ephPrivate;
      ephPublic := p.x25519Public(ephPrivate);
      clientHello, serverHello := None, None;
    }

    method Start() returns (r: Result<Frame>)
      modifies this
      ensures (r, View()) == BuildClientHello(old(View()))
    {
      var hello := ClientHello(policy.capabilityBits, policy.maxPayload, ephPublic, localBundle);
      clientHello := Some(hello);
      r := FrameClientHello(hello);
    }

    method ReceiveServerHello(p: Primitives, f: Frame, now: u64) returns (r: Result<Unit>)
      modifies this
      ensures (r, View()) == HandleServerHello(p, old(View()), f, now)
    {
      hide ServerHelloFromFrame, Common, Validate, TranscriptHash, SignatureMessage;
      var sh :- ParseServerHello(f);
      var _ :- Validate(p, sh.identityBundle, trustStore.pinned, now);
      if clientHello.None? {
        return Err("client hello not built");
      }
      var ch := clientHello.value;
      if Common(ch.capabilityBits, sh.acceptedCapabilityBits) == 0 {
        return Err("no common capability bits");
      }
      if sh.acceptedMaxPayload == 0 || sh.acceptedMaxPayload > policy.maxPayload {
        return Err("invalid accepted max payload");
      }
      var hash :- TranscriptHash(p, ch, sh);
      var message := SignatureMessage(SERVER_PREFIX, hash, ch.ephPublic, sh.ephPublic,
                                      localBundle.x25519StaticPublic, sh.identityBundle.x25519StaticPublic);
      if !p.verify(sh.identityBundle.ed25519Public, message, sh.transcriptSignature) {
        return Err("server transcript signature verification failed");
      }
      serverHello := Some(sh);
      r := Ok(Unit);
    }

    method Finish(p: Primitives) returns (r: Result<Frame>)
      ensures r == BuildClientFinish(p, View())
    {
      hide TranscriptHash, SignatureMessage, ClientFinishToFrame;
      if clientHello.None? {
        return Err("client hello not built");
      }
      if serverHello.None? {
        return Err("server hello not processed");
      }
      var ch, sh := clientHello.value, serverHello.value;
      var hash :- TranscriptHash(p, ch, sh);
      var message := SignatureMessage(CLIENT_PREFIX, hash, ch.ephPublic, sh.ephPublic,
                                      localBundle.x25519StaticPublic, sh.identityBundle.x25519StaticPublic);
      var signature :- SignEd25519(p, localIdentity, message);
      var finish := FrameClientFinish(ClientFinish(policy.maxRekeyBytes, policy.maxRekeySeconds,
                                                   ROLE_HINT_DUPLEX, signature));
      r := Ok(finish);
    }

    method Complete(p: Primitives) returns (r: Result<HandshakeOutput>)
      ensures r == Finalize(p, View())
    {
      hide TranscriptHash, DeriveTransportKeys, Common;
      if clientHello.None? {
        return Err("client hello missing");
      }
      if serverHello.None? {
        return Err("server hello missing");
      }
      var ch, sh := clientHello.value, serverHello.value;
      var hash :- TranscriptHash(p, ch, sh);
      var staticPrivate := localIdentity.x25519Private;
      var ee :- X25519Shared(p, ephPrivate, sh.ephPublic);
      var es :- X25519Shared(p, ephPrivate, sh.identityBundle.x25519StaticPublic);
      var se :- X25519Shared(p, staticPrivate, sh.ephPublic);
      var ss :- X25519Shared(p, staticPrivate, sh.identityBundle.x25519StaticPublic);
      var keys := DeriveTransportKeys(p, Initiator, hash, ee, es, se, ss);
      r := Ok(HandshakeOutput(Initiator, keys.sessionId, keys.txKey, keys.rxKey, sh.identityBundle,
                              Common(ch.capabilityBits, sh.acceptedCapabilityBits), sh.acceptedMaxPayload,
                              policy.maxRekeyBytes, policy.maxRekeySeconds));
    }
  }

  class SecureResponder {
    const localIdentity: Identity
    const localBundle: IdentityBundle
    const trustStore: TrustStore
    const policy: HandshakePolicy
    const ephPrivate: Bytes32
    const ephPublic: Bytes32
    var clientHello: Option<ClientHello>
    var serverHello: Option<ServerHello>

    ghost function View(): Party
      reads this, trustStore
    {
      Party(localIdentity, localBundle, trustStore.pinned, policy, ephPrivate, ephPublic,
            clientHello, serverHello)
    }

    constructor (p: Primitives, id: Identity, bundle: IdentityBundle, trust: TrustStore,
                 policy: HandshakePolicy, ephPrivate: Bytes32)
      ensures View() == NewParty(p, id, bundle, trust.pinned, policy, ephPrivate)
      ensures trustStore == trust
    {
      localIdentity, localBundle, trustStore := id, bundle, trust;
      this.policy, this.ephPrivate := policy, ephPrivate;
      ephPublic := p.x25519Public(ephPrivate);
      clientHello, serverHello := None, None;
    }

    method ReceiveClientHello(p: Primitives, f: Frame, now: u64) returns (r: Result<Frame>)
      modifies this
      ensures (r, View()) == HandleClientHello(p, old(View()), f, now)
    {
      hide ClientHelloFromFrame, ServerHelloToFrame, Common, Validate, TranscriptHash, SignatureMessage;
      var ch :- ParseClientHello(f);
      var _ :- Validate(p, ch.identityBundle, trustStore.pinned, now);
      var acceptedCapabilityBits := Common(ch.capabilityBits, policy.capabilityBits);
      if acceptedCapabilityBits == 0 {
        return Err("no common capability bits");
      }
      var acceptedMaxPayload := ch.requestedMaxPayload;
      if acceptedMaxPayload > policy.maxPayload {
        acceptedMaxPayload := policy.maxPayload;
      }
      if acceptedMaxPayload == 0 {
        return Err("invalid negotiated max payload");
      }
      var sh := ServerHello(acceptedCapabilityBits, acceptedMaxPayload, ephPublic, localBundle, NoSignature());
      var hash :- TranscriptHash(p, ch, sh);
      var message := SignatureMessage(SERVER_PREFIX, hash, ch.ephPublic, sh.ephPublic,
                                      ch.identityBundle.x25519StaticPublic, localBundle.x25519StaticPublic);
      var signature :- SignEd25519(p, localIdentity, message);
      sh := sh.(transcriptSignature := signature);
      clientHello := Some(ch);
      serverHello := Some(sh);
      r := FrameServerHello(sh);
    }

    method ReceiveClientFinish(p: Primitives, f: Frame) returns (r: Result<HandshakeOutput>)
      ensures r == HandleClientFinish(p, View(), f)
    {
      hide ClientFinishFromFrame, TranscriptHash, SignatureMessage, DeriveTransportKeys;
      var finish :- ParseClientFinish(f);
      if clientHello.None? {
        return Err("client hello missing");
      }
      if serverHello.None? {
        return Err("server hello missing");
      }
      var ch, sh := clientHello.value, serverHello.value;
      var hash :- TranscriptHash(p, ch, sh);
      var message := SignatureMessage(CLIENT_PREFIX, hash, ch.ephPublic, sh.ephPublic,
                                      ch.identityBundle.x25519StaticPublic, localBundle.x25519StaticPublic);
      if !p.verify(ch.identityBundle.ed25519Public, message, finish.transcriptSignature) {
        return Err("client transcript signature verification failed");
      }
      var staticPrivate := localIdentity.x25519Private;
      var ee :- X25519Shared(p, ephPrivate, ch.ephPublic);
      var es :- X25519Shared(p, staticPrivate, ch.ephPublic);
      var se :- X25519Shared(p, ephPrivate, ch.identityBundle.x25519StaticPublic);
      var ss :- X25519Shared(p, staticPrivate, ch.identityBundle.x25519StaticPublic);
      var keys := DeriveTransportKeys(p, Responder, hash, ee, es, se, ss);
      r := Ok(HandshakeOutput(Responder, keys.sessionId, keys.txKey, keys.rxKey, ch.identityBundle,
                              sh.acceptedCapabilityBits, sh.acceptedMaxPayload,
                              finish.maxRekeyBytes, finish.maxRekeySeconds));
    }
  }
}
