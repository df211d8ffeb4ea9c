/** The idealizations of the cryptography are satisfiable: small stand-ins that meet the
    algebraic ones, and streams on which nothing is forged. That signatures of honest keys are
    not forged is met by the run in HandshakeRuns, and by `RecordModes.HonestExchange` for
    records, whatever the cipher. */
module Assumptions {
  import opened Results
  import opened Bytes
  import opened Frames
  import opened HandshakeTypes
  import Cipher
  import Handshakes
  import HandshakeAgreement
  import HandshakeProtocol
  import HandshakeRuns
  import RecordProtocol
  import Sessions
  import opened Streams
  import opened StreamAuthenticity

  function Zeros(n: nat): (b: Bytes)
    ensures |b| == n
  {
    if n == 0 then [] else [0] + Zeros(n - 1)
  }

  /** A 32-byte value holding a number in its last eight bytes. */
  function Key(v: nat): Bytes32 {
    Zeros(24) + BigEndian(8, v)
  }

  /** The stand-in hash adds two to the number in the last eight bytes. */
  function Hash(b: Bytes): Bytes32 {
    if |b| < 8 then Key(0) else Key(Value(b[|b| - 8..]) + 2)
  }

  /** The stand-in tag is the number in the nonce. */
  function Tag(n: Bytes): (t: Bytes)
    ensures |t| == 16
  {
    if |n| == 12 then n[4..] + Zeros(8) else Zeros(16)
  }

  function Seal(k: Bytes32, n: Bytes, plain: Bytes, aad: Bytes): Bytes {
    plain + Tag(n)
  }

  function Open(k: Bytes32, n: Bytes, c: Bytes, aad: Bytes): Option<Bytes> {
    if |c| >= 16 && c[|c| - 16..] == Tag(n) then Some(c[..|c| - 16]) else None
  }

  const SUITE := Cipher.Suite(Hash, Seal, Open)

  ghost function StandIn(horizon: nat): RecordProtocol.Config {
    RecordProtocol.Config(SUITE, 1, Key(0), Key(1), horizon)
  }

  lemma SuiteIsSound()
    ensures SUITE.Sound()
  {
    forall k: Bytes32, n: Bytes, p: Bytes, a: Bytes
      ensures |SUITE.seal(k, n, p, a)| == |p| + 16
      ensures SUITE.open(k, n, SUITE.seal(k, n, p, a), a) == Some(p)
    {
      assert (p + Tag(n))[|p|..] == Tag(n) && (p + Tag(n))[..|p|] == p;
    }
  }

  lemma RekeyAddsTwo(v: nat, direction: u8)
    requires v + 2 < TWO_64
    ensures Cipher.RekeyMaterial(SUITE, Key(v), 1, direction) == Key(v + 2)
  {
    hide BigEndian;
    var input := Cipher.REKEY_PREFIX + U64(1) + [direction] + Key(v);
    assert input[|input| - 8..] == BigEndian(8, v);
    Widths();
    ValueOfBigEndian(8, v);
  }

  lemma {:induction false} ChainCounts(horizon: nat, sender: EndpointRole, n: nat)
    requires 2 * n + 1 < TWO_64
    ensures StandIn(horizon).Chain(sender, n) == Key(2 * n + if sender == Initiator then 0 else 1)
  {
    hide Key, Cipher.RekeyMaterial;
    if n > 0 {
      ChainCounts(horizon, sender, n - 1);
      RekeyAddsTwo(2 * (n - 1) + if sender == Initiator then 0 else 1, Sessions.TxDirection(sender));
    }
  }

  lemma KeyInjective(v: nat, v': nat)
    requires v < TWO_64 && v' < TWO_64 && Key(v) == Key(v')
    ensures v == v'
  {
    Cut(Zeros(24), BigEndian(8, v), Zeros(24), BigEndian(8, v'));
    Widths();
    ValueOfBigEndian(8, v);
    ValueOfBigEndian(8, v');
  }

  /** The record protocol's assumptions hold of a stand-in, for chains of any practical length. */
  lemma RecordAssumptionsHold(horizon: nat)
    requires 2 * horizon + 1 < TWO_64
    ensures StandIn(horizon).Ideal()
  {
    hide Key, Cipher.Suite.Sound, RecordProtocol.Config.Chain;
    SuiteIsSound();
    var g := StandIn(horizon);
    forall r, i, r', j | 0 <= i <= horizon && 0 <= j <= horizon && g.Chain(r, i) == g.Chain(r', j)
      ensures r == r' && i == j
    {
      ChainCounts(horizon, r, i);
      ChainCounts(horizon, r', j);
      KeyInjective(2 * i + if r == Initiator then 0 else 1, 2 * j + if r' == Initiator then 0 else 1);
    }
  }

  /** Sum of two numbers: the stand-in for a shared secret. */
  function Shared(a: Bytes32, b: Bytes32): Option<Bytes32> {
    Some(BigEndian(32, Value(a) + Value(b)))
  }

  function Stretch(ikm: Bytes, salt: Bytes, info: Bytes): Bytes64 {
    Hash(ikm) + Hash(salt)
  }

  function PublicOf(private: Bytes32): Bytes32 {
    private
  }

  function EdPublicOf(private: Bytes): Bytes32 {
    Hash(private)
  }

  /** A stand-in signature holds hashes of the public key and of the message. */
  function Sign(private: Bytes, m: Bytes): Bytes64 {
    Hash(EdPublicOf(private)) + Hash(m)
  }

  predicate Verify(public: Bytes32, m: Bytes, signature: Bytes64) {
    signature == Hash(public) + Hash(m)
  }

  const PRIMITIVES := Handshakes.Primitives(Hash, Stretch, Shared, PublicOf, EdPublicOf, Sign, Verify)

  /** The handshake's algebraic assumptions hold of a stand-in. */
  lemma HandshakeAssumptionsHold()
    ensures PRIMITIVES.DhCommutes() && PRIMITIVES.SignaturesVerify()
  {
    forall a: Bytes32, b: Bytes32
      ensures PRIMITIVES.x25519(a, PRIMITIVES.x25519Public(b)) == PRIMITIVES.x25519(b, PRIMITIVES.x25519Public(a))
    {
      assert Value(a) + Value(b) == Value(b) + Value(a);
    }
  }

  function Endpoint(ed: u8, x: nat, peerEd: u8): Handshakes.Party {
    var id := Handshakes.IdentityFrom(PRIMITIVES, [ed], Key(x));
    var bundle := Handshakes.SignedIdentityBundle(PRIMITIVES, [], 0, MAX_U64, id).value;
    Handshakes.NewParty(PRIMITIVES, id, bundle, {EdPublicOf([peerEd])}, HandshakePolicy(1, 1, 1, 1), Key(x + 1))
  }

  /** Compatible endpoints exist, so there is an honest run with everything agreement presupposes. */
  lemma CompatibleEndpointsExist(now: u64, later: u64)
    ensures HandshakeRuns.Compatible(PRIMITIVES, Endpoint(1, 1, 2), Endpoint(2, 3, 1), now, later)
  {
    hide Hash, Key, Handshakes.Validate, Handshakes.SignedIdentityBundle, HandshakeAgreement.CanSign,
         HandshakeProtocol.WellFormed;
    HandshakeAssumptionsHold();
    ValidEndpoint(1, 1, 2, now);
    ValidEndpoint(2, 3, 1, later);
  }

  lemma ValidEndpoint(ed: u8, x: nat, peerEd: u8, now: u64)
    ensures var e := Endpoint(ed, x, peerEd);
            && e.bundle.keyId == [] && HandshakeAgreement.CanSign(PRIMITIVES, e.identity)
            && HandshakeProtocol.WellFormed(PRIMITIVES, e)
            && Handshakes.Validate(PRIMITIVES, e.bundle, {EdPublicOf([ed])}, now).Ok?
  {
    hide Hash, Key, Handshakes.Validate;
    HandshakeAssumptionsHold();
    HandshakeAgreement.SignedBundleValidates(PRIMITIVES, [ed], Key(x), [], 0, MAX_U64, {EdPublicOf([ed])},
                                             HandshakePolicy(1, 1, 1, 1), Key(x + 1), now);
    HandshakeAgreement.SignedBundleValidates(PRIMITIVES, [ed], Key(x), [], 0, MAX_U64, {EdPublicOf([peerEd])},
                                             HandshakePolicy(1, 1, 1, 1), Key(x + 1), now);
  }

  // ---- Streams without forgery ----

  lemma TagTellsSequence(sid: u64, k: Bytes32, d: u8, q: u64, sid': u64, k': Bytes32, d': u8, q': u64)
    requires Tag(Cipher.DeriveNonce(SUITE, sid, k, d, q)) == Tag(Cipher.DeriveNonce(SUITE, sid', k', d', q'))
    ensures q == q'
  {
    hide Hash;
    var n, n' := Cipher.DeriveNonce(SUITE, sid, k, d, q), Cipher.DeriveNonce(SUITE, sid', k', d', q');
    assert n[4..] == U64(q) && n'[4..] == U64(q');
    Cut(n[4..], Zeros(8), n'[4..], Zeros(8));
    U64Injective(q, q');
  }

  /** With the stand-in, a sealed frame opens only under the number it was sealed under. */
  lemma OpensOnlyOwn(s: Sessions.Session, sent: seq<Frame>, wire: seq<Frame>, r: Sessions.Session, k: nat, now: int)
    requires Keyed(s, r) && SealedInOrder(SUITE, s, sent, wire) && k < |wire|
    requires Sessions.DecryptFrame(SUITE, r, wire[k], now).0.Ok?
    ensures WasSealed(SUITE, s, sent, wire, r, wire[k], r.rxSequence)
  {
    hide Cipher.DeriveNonce, Tag, Hash;
    var c := wire[k].payload;
    assert c == sent[k].payload + Tag(NonceOf(SUITE, s, k));
    assert c[|c| - 16..] == Tag(NonceOf(SUITE, s, k));
    TagTellsSequence(s.sessionId, s.txKey, Sessions.TxDirection(s.role), s.txSequence + k,
                     r.sessionId, r.rxKey, Sessions.RxDirection(r.role), r.rxSequence);
    assert Cipher.BuildAAD(wire[k], r.rxEpoch, r.rxSequence) == AadOf(s, sent[k], k);
  }

  /** With the stand-in, a stream of the sender's frames and heartbeats is unforged however the
      network drops, repeats and reorders them. */
  lemma {:induction false} RearrangedIsUnforged(s: Sessions.Session, sent: seq<Frame>, wire: seq<Frame>,
                                                r: Sessions.Session, fs: seq<Frame>, clock: nat -> int, touches: bool)
    requires Keyed(s, r) && SealedInOrder(SUITE, s, sent, wire)
    requires forall f | f in fs :: |f.payload| < TWO_32 && (f.msgType == MSG_HEARTBEAT || f in wire)
    ensures Unforged(SUITE, s, sent, wire, r, EncodeFrames(fs), clock, touches)
    decreases |fs|
  {
    hide SealedInOrder, Unforged, EncodeFrame, WasSealed, Cipher.DecryptFrame, Cipher.BuildAAD, Cipher.DeriveNonce;
    if fs == [] {
      EmptyStream(SUITE, s, sent, wire, r, clock, touches);
    } else {
      var f, rest := fs[0], EncodeFrames(fs[1..]);
      var now := clock(|rest|);
      if f.msgType == MSG_HEARTBEAT {
        RearrangedIsUnforged(s, sent, wire, if touches then r.(lastSeen := now) else r, fs[1..], clock, touches);
      } else if Sessions.DecryptFrame(SUITE, r, f, now).0.Ok? {
        var k :| 0 <= k < |wire| && wire[k] == f;
        OpensOnlyOwn(s, sent, wire, r, k, now);
        RearrangedIsUnforged(s, sent, wire, Sessions.DecryptFrame(SUITE, r, f, now).1, fs[1..], clock, touches);
      }
      UnforgedFirst(SUITE, s, sent, wire, r, f, rest, clock, touches);
    }
  }

  /** Put together: what the sender puts on the wire, heartbeats included, in any order. */
  lemma RearrangedWireIsUnforged(s: Sessions.Session, r: Sessions.Session, items: seq<Item>, fs: seq<Frame>,
                                 clock: nat -> int, touches: bool)
    requires Keyed(s, r)
    requires forall f | f in fs :: |f.payload| < TWO_32 && (f == HEARTBEAT || f in SealedFrames(SUITE, s, items))
    ensures Unforged(SUITE, s, Sent(SUITE, s, items), SealedFrames(SUITE, s, items), r,
                     EncodeFrames(fs), clock, touches)
  {
    hide SealedInOrder, Unforged, EncodeFrames;
    SealsInOrder(SUITE, s, items);
    RearrangedIsUnforged(s, Sent(SUITE, s, items), SealedFrames(SUITE, s, items), r, fs, clock, touches);
  }
}
