/** What the outputs of a handshake depend on, told by putting other functions in place of the
    key derivation and of the hash: all four shared secrets, and the whole transcript. */
module HandshakeKeys {
  import opened Results
  import opened Bytes
  import opened Frames
  import opened HandshakeTypes
  import opened HandshakeMessages
  import opened Handshakes
  import opened Cipher

  type Derivation = (Bytes, Bytes, Bytes) -> Bytes64

  /** One side of a handshake about to finish: an initiator, or a responder with the finish it
      received. */
  datatype Finisher = Finisher(initiator: bool, s: Party, f: Frame) {
    function Output(p: Primitives): Result<HandshakeOutput> {
      if initiator then Finalize(p, s) else HandleClientFinish(p, s, f)
    }

    /** The keys by direction: initiator to responder, and back. */
    function Keys(p: Primitives): Result<(Bytes32, Bytes32)> {
      var o :- Output(p);
      Ok(if initiator then (o.txKey, o.rxKey) else (o.rxKey, o.txKey))
    }

    function SessionId(p: Primitives): Result<u64> {
      var o :- Output(p);
      Ok(o.sessionId)
    }

    /** The secret shared by one key of the initiator and one of the responder, each either the
        ephemeral or the static one, as this side computes it. */
    function Secret(p: Primitives, initiatorEph: bool, responderEph: bool): Result<Bytes32>
      requires s.clientHello.Some? && s.serverHello.Some?
    {
      var ch, sh := s.clientHello.value, s.serverHello.value;
      if initiator then
        X25519Shared(p, if initiatorEph then s.ephPrivate else s.identity.x25519Private,
                     if responderEph then sh.ephPublic else sh.identityBundle.x25519StaticPublic)
      else
        X25519Shared(p, if responderEph then s.ephPrivate else s.identity.x25519Private,
                     if initiatorEph then ch.ephPublic else ch.identityBundle.x25519StaticPublic)
    }

    predicate Stored() {
      s.clientHello.Some? && s.serverHello.Some?
    }
  }

  // ---- Functions put in place ----

  function Constant(k: Bytes64): Derivation {
    (ikm: Bytes, salt: Bytes, info: Bytes) => k
  }

  /** Shows 64 bytes of the key material. */
  function ShowingMaterial(start: nat): Derivation {
    (ikm: Bytes, salt: Bytes, info: Bytes) => if |ikm| == 128 && start <= 64 then ikm[start..start + 64] else Zero64()
  }

  function ShowingSalt(): Derivation {
    (ikm: Bytes, salt: Bytes, info: Bytes) => if |salt| == 32 then salt + salt else Zero64()
  }

  /** Shows whether the context is the expected one. */
  function MarkingInfo(expected: Bytes): Derivation {
    (ikm: Bytes, salt: Bytes, info: Bytes) => if info == expected then Filled(1) + Filled(1) else Zero64()
  }

  function Zero64(): (b: Bytes64) {
    Filled(0) + Filled(0)
  }

  function AcceptAll(): (Bytes32, Bytes, Bytes64) -> bool {
    (key: Bytes32, message: Bytes, signature: Bytes64) => true
  }

  // ---- Shared secrets ----

  /** `q` differs from `p` only in what is derived, or also hashes differently and does not look
      at signatures. */
  ghost predicate Stands(p: Primitives, q: Primitives) {
    && q.x25519 == p.x25519
    && (q.verify == AcceptAll() || (q.verify == p.verify && q.sha256 == p.sha256))
  }

  /** The key material: the four secrets one after the other. */
  function Material(p: Primitives, x: Finisher): Bytes
    requires x.Stored() && forall ie, re :: x.Secret(p, ie, re).Ok?
  {
    x.Secret(p, true, true).value + x.Secret(p, true, false).value
    + x.Secret(p, false, true).value + x.Secret(p, false, false).value
  }

  lemma OutputStored(p: Primitives, x: Finisher)
    requires x.Output(p).Ok?
    ensures x.Stored() && HashInput(x.s.clientHello.value, x.s.serverHello.value).Ok?
    ensures forall ie, re :: x.Secret(p, ie, re).Ok?
  {
    hide HashInput, DeriveTransportKeys, Common, SignatureMessage, ClientFinishFromFrame;
  }

  lemma InitiatorUnder(p: Primitives, q: Primitives, x: Finisher)
    requires x.initiator && x.Output(p).Ok? && Stands(p, q)
    ensures x.Stored() && HashInput(x.s.clientHello.value, x.s.serverHello.value).Ok?
    ensures forall ie, re :: x.Secret(p, ie, re).Ok?
    ensures var digest := q.sha256(HashInput(x.s.clientHello.value, x.s.serverHello.value).value);
            var keys := q.hkdf(Material(p, x), q.sha256(SALT_PREFIX + digest), KEYS_INFO);
            x.Keys(q) == Ok((keys[..32], keys[32..])) && x.SessionId(q) == Ok(SessionIdOf(q, digest))
  {
    hide HashInput, Common, SessionIdOf, HandleClientFinish;
    OutputStored(p, x);
    var digest := q.sha256(HashInput(x.s.clientHello.value, x.s.serverHello.value).value);
    Halves(q.hkdf(Material(p, x), q.sha256(SALT_PREFIX + digest), KEYS_INFO));
  }

  lemma ResponderUnder(p: Primitives, q: Primitives, x: Finisher)
    requires !x.initiator && x.Output(p).Ok? && Stands(p, q)
    ensures x.Stored() && HashInput(x.s.clientHello.value, x.s.serverHello.value).Ok?
    ensures forall ie, re :: x.Secret(p, ie, re).Ok?
    ensures var digest := q.sha256(HashInput(x.s.clientHello.value, x.s.serverHello.value).value);
            var keys := q.hkdf(Material(p, x), q.sha256(SALT_PREFIX + digest), KEYS_INFO);
            x.Keys(q) == Ok((keys[..32], keys[32..])) && x.SessionId(q) == Ok(SessionIdOf(q, digest))
  {
    hide HashInput, Common, SignatureMessage, ClientFinishFromFrame, SessionIdOf, Finalize;
    OutputStored(p, x);
    var digest := q.sha256(HashInput(x.s.clientHello.value, x.s.serverHello.value).value);
    Halves(q.hkdf(Material(p, x), q.sha256(SALT_PREFIX + digest), KEYS_INFO));
  }

  /** Keys and session id under other primitives. */
  lemma OutputUnder(p: Primitives, q: Primitives, x: Finisher)
    requires x.Output(p).Ok? && Stands(p, q)
    ensures x.Stored() && HashInput(x.s.clientHello.value, x.s.serverHello.value).Ok?
    ensures forall ie, re :: x.Secret(p, ie, re).Ok?
    ensures var digest := q.sha256(HashInput(x.s.clientHello.value, x.s.serverHello.value).value);
            var keys := q.hkdf(Material(p, x), q.sha256(SALT_PREFIX + digest), KEYS_INFO);
            x.Keys(q) == Ok((keys[..32], keys[32..])) && x.SessionId(q) == Ok(SessionIdOf(q, digest))
  {
    hide HashInput, Finisher.Output, Finisher.Keys, Finisher.SessionId, Finisher.Secret, SessionIdOf;
    if x.initiator {
      InitiatorUnder(p, q, x);
    } else {
      ResponderUnder(p, q, x);
    }
  }

  /** What the transport keys are made of, in order: the four secrets as key material, the context,
      and the halves of the result by direction. */
  lemma KeysShow(p: Primitives, x: Finisher, k: Bytes64)
    requires x.Output(p).Ok?
    ensures x.Stored() && forall ie, re :: x.Secret(p, ie, re).Ok?
    ensures x.Keys(p.(hkdf := Constant(k))) == Ok((k[..32], k[32..]))
    ensures x.Keys(p.(hkdf := ShowingMaterial(0)))
         == Ok((x.Secret(p, true, true).value, x.Secret(p, true, false).value))
    ensures x.Keys(p.(hkdf := ShowingMaterial(64)))
         == Ok((x.Secret(p, false, true).value, x.Secret(p, false, false).value))
    ensures x.Keys(p.(hkdf := MarkingInfo(Ascii("SHADOWLARK_TRANSPORT_KEYS")))) == Ok((Filled(1), Filled(1)))
  {
    hide HashInput, Finisher.Output, Finisher.Keys, Finisher.SessionId, Finisher.Secret, SessionIdOf;
    OutputUnder(p, p.(hkdf := Constant(k)), x);
    OutputUnder(p, p.(hkdf := ShowingMaterial(0)), x);
    OutputUnder(p, p.(hkdf := ShowingMaterial(64)), x);
    OutputUnder(p, p.(hkdf := MarkingInfo(Ascii("SHADOWLARK_TRANSPORT_KEYS"))), x);
    MaterialParts(x.Secret(p, true, true).value, x.Secret(p, true, false).value,
                  x.Secret(p, false, true).value, x.Secret(p, false, false).value);
  }

  lemma MaterialParts(ee: Bytes32, es: Bytes32, se: Bytes32, ss: Bytes32)
    ensures var ikm: Bytes := ee + es + se + ss;
            && |ikm| == 128
            && ikm[0..64][..32] == ee && ikm[0..64][32..] == es
            && ikm[64..128][..32] == se && ikm[64..128][32..] == ss
  {
    var ikm: Bytes := ee + es + se + ss;
    assert ikm[0..64] == ee + es && ikm[64..128] == se + ss;
  }

  lemma Halves(keys: Bytes64)
    ensures keys[0..32] == keys[..32] && keys[32..64] == keys[32..]
  {}

  /** The keys bind the secrets: two sides, of either role, whose keys agree whatever is put in
      place of the derivation agree in all four shared secrets, one by one. */
  lemma KeysBindSecrets(p: Primitives, x: Finisher, y: Finisher)
    requires x.Output(p).Ok? && y.Output(p).Ok?
    requires forall h: Derivation :: x.Keys(p.(hkdf := h)) == y.Keys(p.(hkdf := h))
    ensures x.Stored() && y.Stored() && forall ie, re :: x.Secret(p, ie, re) == y.Secret(p, ie, re)
  {
    hide Finisher.Output, Finisher.Keys, Finisher.Secret;
    KeysShow(p, x, Zero64());
    KeysShow(p, y, Zero64());
    OutputStored(p, x);
    OutputStored(p, y);
    assert x.Keys(p.(hkdf := ShowingMaterial(0))) == y.Keys(p.(hkdf := ShowingMaterial(0)));
    assert x.Keys(p.(hkdf := ShowingMaterial(64))) == y.Keys(p.(hkdf := ShowingMaterial(64)));
    forall ie, re
      ensures x.Secret(p, ie, re) == y.Secret(p, ie, re)
    {
      assert ie == true || ie == false;
      assert re == true || re == false;
    }
  }

  // ---- The transcript ----

  /** The primitives with another hash, a derivation that shows its salt, and signatures that
      are not looked at. */
  function Probed(p: Primitives, hash: Bytes -> Bytes32): Primitives {
    p.(sha256 := hash, hkdf := ShowingSalt(), verify := AcceptAll())
  }

  /** A hash that sends one transcript, and what is made of its hash with a prefix, to zeros, and
      everything else to ones. */
  function Following(transcript: Bytes, prefix: Bytes): Bytes -> Bytes32 {
    (z: Bytes) => if z == transcript || z == prefix + Filled(0) then Filled(0) else Filled(1)
  }

  /** The transcript, the salt and the session id are hashed from inputs that differ. */
  lemma HashInputsSeparate(ch: ClientHello, sh: ServerHello, d: Bytes32, e: Bytes32)
    requires HashInput(ch, sh).Ok?
    ensures HashInput(ch, sh).value != SALT_PREFIX + d && HashInput(ch, sh).value != SESSION_PREFIX + d
    ensures SALT_PREFIX + d != SESSION_PREFIX + e
  {
    hide TranscriptBytes;
    assert TRANSCRIPT_PREFIX[11] == 'X' as int && SALT_PREFIX[11] == 'H' as int && SESSION_PREFIX[11] == 'S' as int;
    assert HashInput(ch, sh).value[11] == TRANSCRIPT_PREFIX[11];
    assert (SALT_PREFIX + d)[11] == SALT_PREFIX[11];
    assert (SESSION_PREFIX + d)[11] == SESSION_PREFIX[11] && (SESSION_PREFIX + e)[11] == SESSION_PREFIX[11];
  }

  ghost predicate SameTranscript(x: Finisher, y: Finisher) {
    && x.Stored() && y.Stored()
    && x.s.clientHello == y.s.clientHello && SameUnsigned(x.s.serverHello.value, y.s.serverHello.value)
  }

  lemma OutputProbed(p: Primitives, x: Finisher, hash: Bytes -> Bytes32)
    requires x.Output(p).Ok?
    ensures x.Stored() && HashInput(x.s.clientHello.value, x.s.serverHello.value).Ok?
    ensures var digest := hash(HashInput(x.s.clientHello.value, x.s.serverHello.value).value);
            && x.Keys(Probed(p, hash)) == Ok((hash(SALT_PREFIX + digest), hash(SALT_PREFIX + digest)))
            && x.SessionId(Probed(p, hash)) == Ok(SessionIdOf(Probed(p, hash), digest))
  {
    hide HashInput, Finisher.Output, Finisher.Keys, Finisher.SessionId, Finisher.Secret, SessionIdOf;
    OutputUnder(p, Probed(p, hash), x);
  }

  lemma SameInputSameTranscript(x: Finisher, y: Finisher)
    requires x.Stored() && y.Stored() && HashInput(x.s.clientHello.value, x.s.serverHello.value).Ok?
    requires HashInput(x.s.clientHello.value, x.s.serverHello.value)
          == HashInput(y.s.clientHello.value, y.s.serverHello.value)
    ensures SameTranscript(x, y)
  {
    hide TranscriptBytes;
    var ch, sh, ch', sh' := x.s.clientHello.value, x.s.serverHello.value, y.s.clientHello.value, y.s.serverHello.value;
    Cut(TRANSCRIPT_PREFIX, TranscriptBytes(ch, sh).value, TRANSCRIPT_PREFIX, TranscriptBytes(ch', sh').value);
    TranscriptInjective(ch, sh, ch', sh');
  }

  /** The keys bind the transcript: two sides whose keys agree whatever is put in place of the
      hash, under a derivation that shows its salt, hold the same hellos. */
  lemma KeysBindTranscript(p: Primitives, x: Finisher, y: Finisher)
    requires x.Output(p).Ok? && y.Output(p).Ok?
    requires forall hash: Bytes -> Bytes32 :: x.Keys(Probed(p, hash)) == y.Keys(Probed(p, hash))
    ensures SameTranscript(x, y)
  {
    hide HashInput, Finisher.Output, Finisher.Keys, Probed;
    OutputStored(p, x);
    OutputProbed(p, x, p.sha256);
    OutputProbed(p, y, p.sha256);
    var input := HashInput(x.s.clientHello.value, x.s.serverHello.value).value;
    var input' := HashInput(y.s.clientHello.value, y.s.serverHello.value).value;
    var hash := Following(input, SALT_PREFIX);
    OutputProbed(p, x, hash);
    OutputProbed(p, y, hash);
    assert x.Keys(Probed(p, hash)) == y.Keys(Probed(p, hash));
    FollowingTells(x, y, SALT_PREFIX);
    SameInputSameTranscript(x, y);
  }

  /** Hashing the hash again with the prefix tells the one transcript from all others. */
  lemma FollowingTells(x: Finisher, y: Finisher, prefix: Bytes)
    requires x.Stored() && y.Stored() && (prefix == SALT_PREFIX || prefix == SESSION_PREFIX)
    requires HashInput(x.s.clientHello.value, x.s.serverHello.value).Ok?
    requires HashInput(y.s.clientHello.value, y.s.serverHello.value).Ok?
    ensures var input, input' := HashInput(x.s.clientHello.value, x.s.serverHello.value).value,
                                 HashInput(y.s.clientHello.value, y.s.serverHello.value).value;
            var hash := Following(input, prefix);
            && hash(prefix + hash(input)) == Filled(0)
            && hash(prefix + hash(input')) == if input == input' then Filled(0) else Filled(1)
    ensures Filled(0) != Filled(1)
  {
    hide HashInput;
    var input, input' := HashInput(x.s.clientHello.value, x.s.serverHello.value).value,
                         HashInput(y.s.clientHello.value, y.s.serverHello.value).value;
    assert Filled(0)[0] != Filled(1)[0];
    HashInputsSeparate(x.s.clientHello.value, x.s.serverHello.value, Filled(1), Filled(1));
    HashInputsSeparate(y.s.clientHello.value, y.s.serverHello.value, Filled(0), Filled(0));
    if input != input' {
      assert Following(input, prefix)(input') == Filled(1);
      assert (prefix + Filled(1))[|prefix|] != (prefix + Filled(0))[|prefix|];
    }
  }

  /** The session id binds the transcript in the same way. */
  lemma SessionIdBindsTranscript(p: Primitives, x: Finisher, y: Finisher)
    requires x.Output(p).Ok? && y.Output(p).Ok?
    requires forall hash: Bytes -> Bytes32 :: x.SessionId(Probed(p, hash)) == y.SessionId(Probed(p, hash))
    ensures SameTranscript(x, y)
  {
    hide HashInput, Finisher.Output, Finisher.SessionId, Probed, SessionIdOf;
    OutputProbed(p, x, p.sha256);
    OutputProbed(p, y, p.sha256);
    var input := HashInput(x.s.clientHello.value, x.s.serverHello.value).value;
    var input' := HashInput(y.s.clientHello.value, y.s.serverHello.value).value;
    var hash := Following(input, SESSION_PREFIX);
    OutputProbed(p, x, hash);
    OutputProbed(p, y, hash);
    assert x.SessionId(Probed(p, hash)) == y.SessionId(Probed(p, hash));
    FollowingTells(x, y, SESSION_PREFIX);
    SessionIdIs(Probed(p, hash), hash(input));
    SessionIdIs(Probed(p, hash), hash(input'));
    ProbedHash(p, hash);
    SameInputSameTranscript(x, y);
  }

  lemma ProbedHash(p: Primitives, hash: Bytes -> Bytes32)
    ensures Probed(p, hash).sha256 == hash
  {}

  /** The session id is the first eight bytes of a hash, read as a number, or one for zero. */
  lemma SessionIdIs(p: Primitives, digest: Bytes32)
    ensures var first := p.sha256(Ascii("SHADOWLARK_SESSION_ID") + digest)[..8];
            SessionIdOf(p, digest) == if Value(first) == 0 then 1 else Value(first)
    ensures Value(Filled(0)[..8]) == 0 && Value(Filled(1)[..8]) > 1
  {
    var ones := Filled(1)[..8];
    assert ones[..7][6] == 1;
    ZerosAreZero(Filled(0)[..8]);
  }

  lemma {:induction false} ZerosAreZero(b: Bytes)
    requires forall i | 0 <= i < |b| :: b[i] == 0
    ensures Value(b) == 0
  {
    if b != [] {
      ZerosAreZero(b[..|b| - 1]);
    }
  }
}
