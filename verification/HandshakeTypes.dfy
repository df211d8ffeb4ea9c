/** transport/handshake/handshake.go: the values exchanged and produced by the handshake. */
module HandshakeTypes {
  import opened Bytes

  datatype EndpointRole = Initiator | Responder {
    function Peer(): EndpointRole {
      if this == Initiator then Responder else Initiator
    }
  }

  datatype IdentityBundle = IdentityBundle(
    bundleVersion: u8,
    sigAlg: u8,
    keyId: Bytes,
    notBeforeUnix: u64,
    notAfterUnix: u64,
    x25519StaticPublic: Bytes32,
    ed25519Public: Bytes32,
    signature: Bytes64)

  datatype ClientHello = ClientHello(
    capabilityBits: bv32,
    requestedMaxPayload: u32,
    ephPublic: Bytes32,
    identityBundle: IdentityBundle)

  datatype ServerHello = ServerHello(
    acceptedCapabilityBits: bv32,
    acceptedMaxPayload: u32,
    ephPublic: Bytes32,
    identityBundle: IdentityBundle,
    transcriptSignature: Bytes64)

  /** Role hints above 3 can be held but are refused when parsed. */
  datatype ClientFinish = ClientFinish(
    maxRekeyBytes: u64,
    maxRekeySeconds: u32,
    roleHint: u8,
    transcriptSignature: Bytes64)

  datatype HandshakePolicy = HandshakePolicy(
    capabilityBits: bv32,
    maxPayload: u32,
    maxRekeyBytes: u64,
    maxRekeySeconds: u32)

  datatype HandshakeOutput = HandshakeOutput(
    role: EndpointRole,
    sessionId: u64,
    txKey: Bytes32,
    rxKey: Bytes32,
    peerIdentity: IdentityBundle,
    negotiatedCapabilityBits: bv32,
    negotiatedMaxPayload: u32,
    maxRekeyBytes: u64,
    maxRekeySeconds: u32)
}
