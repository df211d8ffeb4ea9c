/** What the handshake guarantees in every run: agreement of both sides on both hellos, and
    outputs that mirror each other. */
module HandshakeAgreement {
  import opened Results
  import opened Bytes
  import opened Frames
  import opened HandshakeTypes
  import opened HandshakeMessages
  import opened HandshakeCodecs
  import opened Handshakes
  import opened HandshakeProtocol

  // ---- The three kinds of signed message ----

  lemma PrefixBytes()
    ensures BUNDLE_PREFIX[11] == 'I' as int && SERVER_PREFIX[11] == 'S' as int && CLIENT_PREFIX[11] == 'C' as int
    ensures |BUNDLE_PREFIX| > 11 && |SERVER_PREFIX| == 27 && |CLIENT_PREFIX| == 28
  {}

  lemma SignatureMessageStarts(prefix: Bytes, hash: Bytes32, a: Bytes32, b: Bytes32, c: Bytes32, d: Bytes32, k: nat)
    requires k < |prefix|
    ensures k < |SignatureMessage(prefix, hash, a, b, c, d)|
    ensures SignatureMessage(prefix, hash, a, b, c, d)[k] == prefix[k]
  {}

  lemma BundleMessageStarts(b: IdentityBundle)
    requires BundleMessage(b).Ok?
    ensures |BundleMessage(b).value| > 11 && BundleMessage(b).value[11] == 'I' as int
  {
    hide BigEndian;
    PrefixBytes();
    var m := BundleMessage(b).value;
    var rest := [b.bundleVersion] + [b.sigAlg] + U16(|b.keyId|) + b.keyId
                + U64(b.notBeforeUnix) + U64(b.notAfterUnix) + b.x25519StaticPublic + b.ed25519Public;
    assert m[11] == BUNDLE_PREFIX[11];
  }

  /** No message is of two kinds: the three prefixes differ in their twelfth byte. */
  lemma KindsDiffer(p: Primitives, ch: ClientHello, sh: ServerHello, a: Bytes32, b: Bytes32,
                    ch': ClientHello, sh': ServerHello, a': Bytes32, b': Bytes32)
    ensures ServerMessage(p, ch, sh, a, b).Ok? ==>
              && !IsBundleMessage(ServerMessage(p, ch, sh, a, b).value)
              && ClientMessage(p, ch', sh', a', b') != ServerMessage(p, ch, sh, a, b)
    ensures ClientMessage(p, ch, sh, a, b).Ok? ==> !IsBundleMessage(ClientMessage(p, ch, sh, a, b).value)
  {
    hide TranscriptHash, SignatureMessage, BundleMessage;
    PrefixBytes();
    if ServerMessage(p, ch, sh, a, b).Ok? {
      var hash := TranscriptHash(p, ch, sh).value;
      SignatureMessageStarts(SERVER_PREFIX, hash, ch.ephPublic, sh.ephPublic, a, b, 11);
      SignatureMessageStarts(CLIENT_PREFIX, hash, ch.ephPublic, sh.ephPublic, a, b, 11);
      NotABundle(ServerMessage(p, ch, sh, a, b).value);
      NotABundle(ClientMessage(p, ch, sh, a, b).value);
    }
    if ClientMessage(p, ch', sh', a', b').Ok? {
      SignatureMessageStarts(CLIENT_PREFIX, TranscriptHash(p, ch', sh').value,
                             ch'.ephPublic, sh'.ephPublic, a', b', 11);
    }
  }

  lemma NotABundle(m: Bytes)
    requires |m| > 11 && m[11] != 'I' as int
    ensures !IsBundleMessage(m)
  {
    if IsBundleMessage(m) {
      var b :| BundleMessage(b) == Ok(m);
      BundleMessageStarts(b);
    }
  }

  lemma IsOne(x: Signed, b: IdentityBundle)
    requires SignsBundle(x, b)
    ensures IsBundleMessage(x.message)
  {
    hide BundleMessage;
  }

  /** What is signed of a bundle determines it, but for the signature. */
  lemma BundleMessageInjective(b: IdentityBundle, b': IdentityBundle)
    requires BundleMessage(b).Ok? && BundleMessage(b) == BundleMessage(b')
    ensures b == b'.(signature := b.signature)
  {
    hide BigEndian, BundleOnto, TakeBundle;
    var c := b'.(signature := b.signature);
    BundleParts(BUNDLE_PREFIX, b);
    BundleParts(BUNDLE_PREFIX, c);
    Cut(BUNDLE_PREFIX, BundleOnto(b, []), BUNDLE_PREFIX, BundleOnto(c, []));
    TakeBundleOf(b, []);
    TakeBundleOf(c, []);
  }

  lemma SignatureMessageInjective(prefix: Bytes, hash: Bytes32, a: Bytes32, b: Bytes32, c: Bytes32, d: Bytes32,
                                  hash': Bytes32, a': Bytes32, b': Bytes32, c': Bytes32, d': Bytes32)
    requires SignatureMessage(prefix, hash, a, b, c, d) == SignatureMessage(prefix, hash', a', b', c', d')
    ensures hash == hash' && a == a' && b == b' && c == c' && d == d'
  {
    Cut(prefix + hash, a + b + c + d, prefix + hash', a' + b' + c' + d');
    Cut(prefix, hash, prefix, hash');
    Cut(a + b + c, d, a' + b' + c', d');
    Cut(a + b, c, a' + b', c');
    Cut(a, b, a', b');
  }

  /** A signed message binds the transcript hash, both ephemeral keys and both static keys. */
  lemma SignedMessagesBind(p: Primitives, ch: ClientHello, sh: ServerHello, a: Bytes32, b: Bytes32,
                           ch': ClientHello, sh': ServerHello, a': Bytes32, b': Bytes32)
    requires || (ServerMessage(p, ch, sh, a, b).Ok?
                 && ServerMessage(p, ch, sh, a, b) == ServerMessage(p, ch', sh', a', b'))
             || (ClientMessage(p, ch, sh, a, b).Ok?
                 && ClientMessage(p, ch, sh, a, b) == ClientMessage(p, ch', sh', a', b'))
    ensures TranscriptHash(p, ch, sh).Ok? && TranscriptHash(p, ch, sh) == TranscriptHash(p, ch', sh')
    ensures ch.ephPublic == ch'.ephPublic && sh.ephPublic == sh'.ephPublic && a == a' && b == b'
  {
    hide TranscriptHash, SignatureMessage;
    var hash, hash' := TranscriptHash(p, ch, sh).value, TranscriptHash(p, ch', sh').value;
    if ServerMessage(p, ch, sh, a, b) == ServerMessage(p, ch', sh', a', b') {
      SignatureMessageInjective(SERVER_PREFIX, hash, ch.ephPublic, sh.ephPublic, a, b,
                                hash', ch'.ephPublic, sh'.ephPublic, a', b');
    } else {
      SignatureMessageInjective(CLIENT_PREFIX, hash, ch.ephPublic, sh.ephPublic, a, b,
                                hash', ch'.ephPublic, sh'.ephPublic, a', b');
    }
  }

  /** Equal hashes of transcripts that were hashed in the run are equal hellos. */
  lemma HashDetermines(p: Primitives, w: World, ch: ClientHello, sh: ServerHello,
                       ch': ClientHello, sh': ServerHello)
    requires CollisionFree(p, w)
    requires HashInput(ch, sh).Ok? && HashInput(ch, sh).value in w.hashed
    requires HashInput(ch', sh').Ok? && HashInput(ch', sh').value in w.hashed
    requires TranscriptHash(p, ch, sh) == TranscriptHash(p, ch', sh')
    ensures ch == ch' && SameUnsigned(sh, sh')
  {
    hide TranscriptBytes;
    Cut(TRANSCRIPT_PREFIX, TranscriptBytes(ch, sh).value, TRANSCRIPT_PREFIX, TranscriptBytes(ch', sh').value);
    TranscriptInjective(ch, sh, ch', sh');
  }

  // ---- Agreement ----

  /** The offer that answers for an accepted server hello. */
  ghost predicate OfferedBy(w: World, o: Offer, key: Bytes32, ch: ClientHello, sh: ServerHello) {
    && o in w.offers && o.responder < |w.responders|
    && w.responders[o.responder].identity.ed25519Public == key
    && o.ch == ch && SameUnsigned(o.sh, sh)
  }

  ghost predicate ConsentedBy(w: World, c: Consent, key: Bytes32, ch: ClientHello, sh: ServerHello) {
    && c in w.consents && c.initiator < |w.initiators|
    && w.initiators[c.initiator].identity.ed25519Public == key
    && c.ch == ch && SameUnsigned(c.sh, sh)
  }

  lemma SignedServerMessage(p: Primitives, w: World, key: Bytes32, ch: ClientHello, sh: ServerHello,
                            clientStatic: Bytes32, serverStatic: Bytes32)
    requires Inv(p, w) && CollisionFree(p, w)
    requires HashInput(ch, sh).Ok? && HashInput(ch, sh).value in w.hashed
    requires ServerMessage(p, ch, sh, clientStatic, serverStatic).Ok?
    requires Signed(key, ServerMessage(p, ch, sh, clientStatic, serverStatic).value) in w.signed
    ensures exists o :: OfferedBy(w, o, key, ch, sh)
  {
    hide InitiatorInv, HashInput, AcceptedMaxPayload, Common, CollisionFree, IsBundleMessage, SignatureMessage;
    var x := Signed(key, ServerMessage(p, ch, sh, clientStatic, serverStatic).value);
    assert SignedForReason(p, w, x);
    KindsDiffer(p, ch, sh, clientStatic, serverStatic, ch, sh, clientStatic, serverStatic);
    if o :| o in w.offers && SignsOffer(p, w, x, o) {
      assert OfferInv(p, w, o);
      SignatureMessageInjective(SERVER_PREFIX, TranscriptHash(p, ch, sh).value, ch.ephPublic, sh.ephPublic,
        clientStatic, serverStatic, TranscriptHash(p, o.ch, o.sh).value, o.ch.ephPublic, o.sh.ephPublic,
        o.ch.identityBundle.x25519StaticPublic, w.responders[o.responder].bundle.x25519StaticPublic);
      HashDetermines(p, w, ch, sh, o.ch, o.sh);
      assert OfferedBy(w, o, key, ch, sh);
    } else if b :| b in w.bundles && SignsBundle(x, b) {
      IsOne(x, b);
      assert false;
    } else {
      var c :| c in w.consents && SignsConsent(p, w, x, c);
      KindsDiffer(p, ch, sh, clientStatic, serverStatic, c.ch, c.sh,
                  w.initiators[c.initiator].bundle.x25519StaticPublic, c.sh.identityBundle.x25519StaticPublic);
      assert false;
    }
  }

  lemma SignedClientMessage(p: Primitives, w: World, key: Bytes32, ch: ClientHello, sh: ServerHello,
                            clientStatic: Bytes32, serverStatic: Bytes32)
    requires Inv(p, w) && CollisionFree(p, w)
    requires HashInput(ch, sh).Ok? && HashInput(ch, sh).value in w.hashed
    requires ClientMessage(p, ch, sh, clientStatic, serverStatic).Ok?
    requires Signed(key, ClientMessage(p, ch, sh, clientStatic, serverStatic).value) in w.signed
    ensures exists c :: ConsentedBy(w, c, key, ch, sh)
  {
    hide ResponderInv, HashInput, CollisionFree, IsBundleMessage, SignatureMessage;
    var x := Signed(key, ClientMessage(p, ch, sh, clientStatic, serverStatic).value);
    assert SignedForReason(p, w, x);
    KindsDiffer(p, ch, sh, clientStatic, serverStatic, ch, sh, clientStatic, serverStatic);
    if c :| c in w.consents && SignsConsent(p, w, x, c) {
      assert ConsentInv(p, w, c);
      SignatureMessageInjective(CLIENT_PREFIX, TranscriptHash(p, ch, sh).value, ch.ephPublic, sh.ephPublic,
        clientStatic, serverStatic, TranscriptHash(p, c.ch, c.sh).value, c.ch.ephPublic, c.sh.ephPublic,
        w.initiators[c.initiator].bundle.x25519StaticPublic, c.sh.identityBundle.x25519StaticPublic);
      HashDetermines(p, w, ch, sh, c.ch, c.sh);
      assert ConsentedBy(w, c, key, ch, sh);
    } else if b :| b in w.bundles && SignsBundle(x, b) {
      IsOne(x, b);
      assert false;
    } else {
      var o :| o in w.offers && SignsOffer(p, w, x, o);
      KindsDiffer(p, o.ch, o.sh, o.ch.identityBundle.x25519StaticPublic,
                  w.responders[o.responder].bundle.x25519StaticPublic, ch, sh, clientStatic, serverStatic);
      assert false;
    }
  }

  /** Initiator agreement: if an initiator finishes and the responder's pinned key is honest,
      a responder with that key signed a server hello over the same client hello and the same
      server hello, apart from the signature in it. */
  lemma InitiatorAgreement(p: Primitives, ws: seq<World>, events: seq<Event>, w: World, i: nat)
    requires IsRun(p, ws, events) && w in ws && CollisionFree(p, w)
    requires i < |w.initiators| && Finalize(p, w.initiators[i]).Ok?
    requires Honest(w, w.initiators[i].serverHello.value.identityBundle.ed25519Public)
    ensures var s := w.initiators[i];
            && s.clientHello == Some(HelloOf(s))
            && exists o :: OfferedBy(w, o, s.serverHello.value.identityBundle.ed25519Public,
                                     HelloOf(s), s.serverHello.value)
  {
    hide IsRun, CollisionFree, ResponderInv, Honest, HashInput, SignatureMessage;
    RunKeepsInv(p, ws, events);
    var s := w.initiators[i];
    assert InitiatorInv(p, w, s);
    var sh := s.serverHello.value;
    SignedServerMessage(p, w, sh.identityBundle.ed25519Public, s.clientHello.value, sh,
                        s.bundle.x25519StaticPublic, sh.identityBundle.x25519StaticPublic);
  }

  /** Responder agreement: if a responder accepts a client finish and the initiator's pinned
      key is honest, an initiator with that key signed exactly the responder's stored pair. */
  lemma ResponderAgreement(p: Primitives, ws: seq<World>, events: seq<Event>, w: World, r: nat, f: Frame)
    requires IsRun(p, ws, events) && w in ws && CollisionFree(p, w)
    requires r < |w.responders| && HandleClientFinish(p, w.responders[r], f).Ok?
    requires ClientFinishUnforged(p, w, w.responders[r], f)
    requires Honest(w, w.responders[r].clientHello.value.identityBundle.ed25519Public)
    ensures var s := w.responders[r];
            exists c :: ConsentedBy(w, c, s.clientHello.value.identityBundle.ed25519Public,
                                    s.clientHello.value, s.serverHello.value)
  {
    hide IsRun, CollisionFree, InitiatorInv, Honest, HashInput, SignatureMessage, ClientFinishFromFrame,
         DeriveTransportKeys;
    RunKeepsInv(p, ws, events);
    var s := w.responders[r];
    assert ResponderInv(p, w, s);
    var ch, sh := s.clientHello.value, s.serverHello.value;
    SignedClientMessage(p, w, ch.identityBundle.ed25519Public, ch, sh,
                        ch.identityBundle.x25519StaticPublic, s.bundle.x25519StaticPublic);
  }

  // ---- Identities ----

  /** An honest key signed the bundle, apart from the signature it carries here. */
  ghost predicate Certified(w: World, b: IdentityBundle) {
    exists signed | signed in w.bundles :: b == signed.(signature := b.signature)
  }

  lemma VouchedIsCertified(p: Primitives, w: World, s: Party, b: IdentityBundle)
    requires Inv(p, w) && Vouched(w, s, b) && Honest(w, b.ed25519Public)
    ensures Certified(w, b)
  {
    hide InitiatorInv, ResponderInv, OfferInv, ConsentInv, Honest, BundleMessage, HashInput, SignatureMessage;
    var x := Signed(b.ed25519Public, BundleMessage(b).value);
    assert SignedForReason(p, w, x);
    assert IsBundleMessage(x.message);
    if own :| own in w.bundles && SignsBundle(x, own) {
      BundleMessageInjective(b, own);
    } else if o :| o in w.offers && SignsOffer(p, w, x, o) {
      var clientStatic := o.ch.identityBundle.x25519StaticPublic;
      var serverStatic := w.responders[o.responder].bundle.x25519StaticPublic;
      KindsDiffer(p, o.ch, o.sh, clientStatic, serverStatic, o.ch, o.sh, clientStatic, serverStatic);
      assert false;
    } else {
      var c :| c in w.consents && SignsConsent(p, w, x, c);
      var clientStatic := w.initiators[c.initiator].bundle.x25519StaticPublic;
      var serverStatic := c.sh.identityBundle.x25519StaticPublic;
      KindsDiffer(p, c.ch, c.sh, clientStatic, serverStatic, c.ch, c.sh, clientStatic, serverStatic);
      assert false;
    }
  }

  /** Authentic identities: in every run, a stored bundle of a peer with an honest key is one
      that this key signed, apart from its signature, and names that very key, its static key
      and its validity window. */
  lemma PeersAreAuthentic(p: Primitives, ws: seq<World>, events: seq<Event>, w: World)
    requires IsRun(p, ws, events) && w in ws
    ensures forall s | s in w.initiators && s.serverHello.Some? ::
              var b := s.serverHello.value.identityBundle;
              Vouched(w, s, b) && (Honest(w, b.ed25519Public) ==> Certified(w, b))
    ensures forall s | s in w.responders && s.clientHello.Some? ::
              var b := s.clientHello.value.identityBundle;
              Vouched(w, s, b) && (Honest(w, b.ed25519Public) ==> Certified(w, b))
  {
    hide IsRun, Honest, Vouched, Certified, HashInput, Common, ServerMessage;
    RunKeepsInv(p, ws, events);
    forall s, b | Vouched(w, s, b) && Honest(w, b.ed25519Public)
      ensures Certified(w, b)
    {
      VouchedIsCertified(p, w, s, b);
    }
    assert forall s | s in w.initiators :: InitiatorInv(p, w, s);
    assert forall s | s in w.responders :: ResponderInv(p, w, s);
  }

  // ---- Mirrored outputs ----

  /** The two outputs of one handshake: what one side sends with, the other receives with. */
  ghost predicate MirroredOutputs(a: HandshakeOutput, b: HandshakeOutput) {
    && a.role == Initiator && b.role == Responder
    && a.sessionId == b.sessionId != 0
    && a.txKey == b.rxKey && a.rxKey == b.txKey
    && a.negotiatedCapabilityBits == b.negotiatedCapabilityBits != 0
    && a.negotiatedMaxPayload == b.negotiatedMaxPayload != 0
  }

  lemma CommonBits(a: bv32, b: bv32)
    ensures Common(a, Common(a, b)) == Common(a, b)
    ensures Common(Common(a, b), a) == Common(a, b) && Common(Common(a, b), b) == Common(a, b)
  {}

  /** The four shared secrets agree pairwise, whichever side computes them. */
  lemma SecretsAgree(p: Primitives, a: Bytes32, b: Bytes32)
    requires p.DhCommutes()
    ensures X25519Shared(p, a, p.x25519Public(b)) == X25519Shared(p, b, p.x25519Public(a))
  {}

  /** Whenever both sides finish on matching hellos, session ids, keys, capabilities and
      payload limits mirror each other, the capabilities are all that both policies offer and the
      limit is the largest within both, and each side names the other's identity. The rekey
      limits are those of the finish the responder received. */
  lemma OutputsMirror(p: Primitives, w: World, i: Party, r: Party, f: Frame)
    requires p.DhCommutes() && InitiatorInv(p, w, i) && ResponderInv(p, w, r)
    requires Finalize(p, i).Ok? && HandleClientFinish(p, r, f).Ok?
    requires i.clientHello == r.clientHello && SameUnsigned(i.serverHello.value, r.serverHello.value)
    ensures var a, b := Finalize(p, i).value, HandleClientFinish(p, r, f).value;
            && MirroredOutputs(a, b)
            && AllInCommon(a.negotiatedCapabilityBits, i.policy.capabilityBits, r.policy.capabilityBits)
            && LargestWithin(a.negotiatedMaxPayload, i.policy.maxPayload, r.policy.maxPayload)
            && a.peerIdentity == r.bundle && b.peerIdentity == i.bundle
            && a.maxRekeyBytes == i.policy.maxRekeyBytes && a.maxRekeySeconds == i.policy.maxRekeySeconds
            && b.maxRekeyBytes == ClientFinishFromFrame(f).value.maxRekeyBytes
            && b.maxRekeySeconds == ClientFinishFromFrame(f).value.maxRekeySeconds
  {
    hide Common, HashInput, Honest, ServerMessage, ClientMessage, ClientFinishFromFrame, X25519Shared,
         Primitives.DhCommutes, AllInCommon, AcceptedMaxPayload, LargestWithin, Vouched;
    var ch, sh := i.clientHello.value, i.serverHello.value;
    SameHash(p, ch, sh, r.serverHello.value);
    CommonBits(i.policy.capabilityBits, r.policy.capabilityBits);
    CommonIsAll(i.policy.capabilityBits, r.policy.capabilityBits);
    AcceptsLargest(ch, r.policy);
    SecretsAgree(p, i.ephPrivate, r.ephPrivate);
    SecretsAgree(p, i.ephPrivate, r.identity.x25519Private);
    SecretsAgree(p, i.identity.x25519Private, r.ephPrivate);
    SecretsAgree(p, i.identity.x25519Private, r.identity.x25519Private);
  }

  /** Both parties stored a server hello, and the two are the same but for the signature. */
  ghost predicate SameUnsignedHello(i: Party, r: Party) {
    i.serverHello.Some? && r.serverHello.Some? && SameUnsigned(i.serverHello.value, r.serverHello.value)
  }

  /** The transcript hash does not see the signature in the server hello. */
  lemma SameHash(p: Primitives, ch: ClientHello, sh: ServerHello, sh': ServerHello)
    requires SameUnsigned(sh, sh')
    ensures TranscriptHash(p, ch, sh) == TranscriptHash(p, ch, sh')
  {
    hide ClientHelloBody, HelloOnto, BundleBytes;
  }

  /** The responder's output names an initiator that signed the pair, and that initiator's own
      Finalize, from the hellos it signed, succeeds with the mirrored output. No matching of
      the two sides' stored hellos is presupposed. */
  lemma ResponderOutputIsMirrored(p: Primitives, ws: seq<World>, events: seq<Event>, w: World, r: nat, f: Frame)
    returns (c: Consent)
    requires p.DhCommutes() && IsRun(p, ws, events) && w in ws && CollisionFree(p, w)
    requires r < |w.responders| && HandleClientFinish(p, w.responders[r], f).Ok?
    requires ClientFinishUnforged(p, w, w.responders[r], f)
    requires Honest(w, w.responders[r].clientHello.value.identityBundle.ed25519Public)
    ensures var s := w.responders[r];
            && ConsentedBy(w, c, s.clientHello.value.identityBundle.ed25519Public,
                           s.clientHello.value, s.serverHello.value)
            && Finalize(p, Consenting(w, c)).Ok?
            && MirroredOutputs(Finalize(p, Consenting(w, c)).value, HandleClientFinish(p, s, f).value)
  {
    hide IsRun, CollisionFree, InitiatorInv, ResponderInv, Honest, HashInput, SignatureMessage,
         ClientFinishFromFrame, Finalize, HandleClientFinish, Primitives.DhCommutes, MirroredOutputs;
    RunKeepsInv(p, ws, events);
    var s := w.responders[r];
    AcceptedFinishHasHellos(p, s, f);
    ResponderAgreement(p, ws, events, w, r, f);
    c :| ConsentedBy(w, c, s.clientHello.value.identityBundle.ed25519Public,
                     s.clientHello.value, s.serverHello.value);
    assert ConsentInv(p, w, c) && ResponderInv(p, w, s);
    var i := Consenting(w, c);
    FinishImpliesFinalize(p, w, i, s, f);
    OutputsMirror(p, w, i, s, f);
  }

  lemma AcceptedFinishHasHellos(p: Primitives, s: Party, f: Frame)
    requires HandleClientFinish(p, s, f).Ok?
    ensures s.clientHello.Some? && s.serverHello.Some?
  {
    hide ClientFinishFromFrame, DeriveTransportKeys, TranscriptHash, ClientMessage;
  }

  /** A responder that accepts a finish has computed the secrets its peer would compute. */
  lemma FinishImpliesFinalize(p: Primitives, w: World, i: Party, r: Party, f: Frame)
    requires p.DhCommutes() && InitiatorInv(p, w, i) && ResponderInv(p, w, r)
    requires HandleClientFinish(p, r, f).Ok?
    requires i.clientHello == r.clientHello && SameUnsignedHello(i, r)
    ensures Finalize(p, i).Ok?
  {
    hide Common, HashInput, Honest, ServerMessage, ClientMessage, ClientFinishFromFrame, X25519Shared,
         Primitives.DhCommutes, DeriveTransportKeys;
    SameHash(p, i.clientHello.value, i.serverHello.value, r.serverHello.value);
    SecretsAgree(p, i.ephPrivate, r.ephPrivate);
    SecretsAgree(p, i.ephPrivate, r.identity.x25519Private);
    SecretsAgree(p, i.identity.x25519Private, r.ephPrivate);
    SecretsAgree(p, i.identity.x25519Private, r.identity.x25519Private);
  }

  // ---- Undisturbed handshakes ----

  /** The signing key is the one its identity announces, and is there. */
  ghost predicate CanSign(p: Primitives, id: Identity) {
    id.ed25519Private != [] && id.ed25519Public == p.edPublic(id.ed25519Private)
  }

  /** A bundle that an identity signs for itself validates exactly for those who pin its key,
      within its validity window; and endpoints set up this way are well formed. */
  lemma SignedBundleValidates(p: Primitives, edPrivate: Bytes, xPrivate: Bytes32, keyId: Bytes,
                              from: u64, until: u64, pinned: set<Bytes32>, policy: HandshakePolicy,
                              eph: Bytes32, now: u64)
    requires p.SignaturesVerify() && edPrivate != []
    ensures var id := IdentityFrom(p, edPrivate, xPrivate);
            var r := SignedIdentityBundle(p, keyId, from, until, id);
            && (r.Ok? <==> |keyId| <= MAX_U16)
            && (r.Ok? ==>
                  && (Validate(p, r.value, pinned, now).Ok? <==> from <= now <= until && id.ed25519Public in pinned)
                  && WellFormed(p, NewParty(p, id, r.value, pinned, policy, eph)) && CanSign(p, id))
  {
    hide BigEndian;
  }

  /** A finish delivered unmodified is accepted exactly when the initiator can finalize, and
      then both sides hold the same rekey limits. */
  lemma UnmodifiedFinish(p: Primitives, w: World, i: Party, r: Party)
    requires p.DhCommutes() && p.SignaturesVerify() && InitiatorInv(p, w, i) && ResponderInv(p, w, r)
    requires CanSign(p, i.identity) && BuildClientFinish(p, i).Ok?
    requires i.clientHello == r.clientHello && SameUnsigned(i.serverHello.value, r.serverHello.value)
    ensures var f := BuildClientFinish(p, i).value;
            && (HandleClientFinish(p, r, f).Ok? <==> Finalize(p, i).Ok?)
            && (Finalize(p, i).Ok? ==>
                  var a, b := Finalize(p, i).value, HandleClientFinish(p, r, f).value;
                  MirroredOutputs(a, b)
                  && a.maxRekeyBytes == b.maxRekeyBytes && a.maxRekeySeconds == b.maxRekeySeconds)
  {
    hide Common, HashInput, Honest, ServerMessage, ClientFinishFromFrame, ClientFinishToFrame, X25519Shared,
         SignatureMessage, DeriveTransportKeys, MirroredOutputs, Primitives.DhCommutes;
    var f, sh := BuildClientFinish(p, i).value, i.serverHello.value;
    SameHash(p, i.clientHello.value, sh, r.serverHello.value);
    FinishCarries(p, i);
    SecretsAgree(p, i.ephPrivate, r.ephPrivate);
    SecretsAgree(p, i.ephPrivate, r.identity.x25519Private);
    SecretsAgree(p, i.identity.x25519Private, r.ephPrivate);
    SecretsAgree(p, i.identity.x25519Private, r.identity.x25519Private);
    if Finalize(p, i).Ok? {
      OutputsMirror(p, w, i, r, f);
    }
  }

  /** The initiator's output names a responder that signed the server hello, and that responder,
      as it was then, accepts the initiator's finish with the mirrored output. */
  lemma InitiatorOutputIsMirrored(p: Primitives, ws: seq<World>, events: seq<Event>, w: World, i: nat)
    returns (o: Offer)
    requires p.DhCommutes() && p.SignaturesVerify()
    requires IsRun(p, ws, events) && w in ws && CollisionFree(p, w)
    requires i < |w.initiators| && Finalize(p, w.initiators[i]).Ok?
    requires CanSign(p, w.initiators[i].identity)
    requires Honest(w, w.initiators[i].serverHello.value.identityBundle.ed25519Public)
    ensures var s := w.initiators[i];
            && OfferedBy(w, o, s.serverHello.value.identityBundle.ed25519Public,
                         HelloOf(s), s.serverHello.value)
            && BuildClientFinish(p, s).Ok?
            && var answered := HandleClientFinish(p, Offering(w, o), BuildClientFinish(p, s).value);
            && answered.Ok? && MirroredOutputs(Finalize(p, s).value, answered.value)
  {
    hide IsRun, CollisionFree, InitiatorInv, ResponderInv, Honest, HashInput, SignatureMessage, CanSign,
         BuildClientFinish, Finalize, HandleClientFinish, Primitives.DhCommutes, MirroredOutputs;
    RunKeepsInv(p, ws, events);
    var s := w.initiators[i];
    FinalizedHasHellos(p, s);
    FinishBuilds(p, s);
    InitiatorAgreement(p, ws, events, w, i);
    o :| OfferedBy(w, o, s.serverHello.value.identityBundle.ed25519Public, HelloOf(s), s.serverHello.value);
    assert InitiatorInv(p, w, s) && OfferInv(p, w, o);
    UnmodifiedFinish(p, w, s, Offering(w, o));
  }

  lemma FinalizedHasHellos(p: Primitives, s: Party)
    requires Finalize(p, s).Ok?
    ensures s.clientHello.Some? && s.serverHello.Some?
    ensures HashInput(s.clientHello.value, s.serverHello.value).Ok?
  {
    hide HashInput, DeriveTransportKeys, Common;
  }

  /** The finish parses back to the limits and signature put into it, and the signature verifies. */
  lemma FinishCarries(p: Primitives, i: Party)
    requires p.SignaturesVerify() && CanSign(p, i.identity) && BuildClientFinish(p, i).Ok?
    ensures var parsed := ClientFinishFromFrame(BuildClientFinish(p, i).value);
            && parsed.Ok?
            && parsed.value.maxRekeyBytes == i.policy.maxRekeyBytes
            && parsed.value.maxRekeySeconds == i.policy.maxRekeySeconds
            && parsed.value.roleHint == 3
            && ConsentMessage(p, i).Ok?
            && p.verify(i.identity.ed25519Public, ConsentMessage(p, i).value, parsed.value.transcriptSignature)
  {
    hide TranscriptHash, SignatureMessage, ClientFinishToFrame, ClientFinishFromFrame;
    var signature := SignEd25519(p, i.identity, ConsentMessage(p, i).value).value;
    ClientFinishRoundTrip(ClientFinish(i.policy.maxRekeyBytes, i.policy.maxRekeySeconds,
                                       ROLE_HINT_DUPLEX, signature), []);
  }

  /** Two fresh endpoints that pin each other complete the exchange of hellos on an undisturbed
      network whenever they have a capability and a payload size in common. */
  lemma HonestHellosSucceed(p: Primitives, i: Party, r: Party, now: u64, later: u64)
    requires p.SignaturesVerify() && CanSign(p, r.identity) && WellFormed(p, i) && WellFormed(p, r)
    requires |i.bundle.keyId| <= 65345 && |r.bundle.keyId| <= 65281
    requires Validate(p, i.bundle, r.pinned, now).Ok? && Validate(p, r.bundle, i.pinned, later).Ok?
    requires Common(i.policy.capabilityBits, r.policy.capabilityBits) != 0
    requires i.policy.maxPayload != 0 && r.policy.maxPayload != 0
    ensures var (hello, i1) := BuildClientHello(i);
            && hello.Ok?
            && var (answer, r1) := HandleClientHello(p, r, hello.value, now);
            && answer.Ok?
            && var (accepted, i2) := HandleServerHello(p, i1, answer.value, later);
            && accepted.Ok? && i2.clientHello == r1.clientHello && i2.serverHello == r1.serverHello
            && i2.clientHello == Some(HelloOf(i)) && i2.serverHello.Some?
  {
    hide Common, TranscriptHash, SignatureMessage, Validate, AnswerClientHello, CheckServerHello,
         ClientHelloToFrame, ServerHelloToFrame, ClientHelloFromFrame, ServerHelloFromFrame;
    var ch := HelloOf(i);
    ClientHelloRoundTrip(ch, []);
    var f := ClientHelloToFrame(ch).value;
    ResponderAnswers(p, r, f, ch, now);
    var sh := AnswerClientHello(p, r, f, now).value.1;
    ServerHelloRoundTrip(sh, []);
    CommonBits(i.policy.capabilityBits, r.policy.capabilityBits);
    InitiatorAccepts(p, i.(clientHello := Some(ch)), ServerHelloToFrame(sh).value, sh, later);
  }

  /** A framed client hello with a valid bundle and something in common is answered with a
      signature that verifies. */
  lemma ResponderAnswers(p: Primitives, r: Party, f: Frame, ch: ClientHello, now: u64)
    requires p.SignaturesVerify() && CanSign(p, r.identity)
    requires ClientHelloFromFrame(f) == Ok(ch) && Validate(p, ch.identityBundle, r.pinned, now).Ok?
    requires |ch.identityBundle.keyId| <= 65345 && |r.bundle.keyId| <= 65281
    requires Common(ch.capabilityBits, r.policy.capabilityBits) != 0 && AcceptedMaxPayload(ch, r.policy) != 0
    ensures AnswerClientHello(p, r, f, now).Ok?
    ensures var (ch', sh) := AnswerClientHello(p, r, f, now).value;
            && ch' == ch && sh == AnswerTo(r, ch, sh.transcriptSignature)
            && OfferMessage(p, r, ch, sh).Ok?
            && p.verify(r.identity.ed25519Public, OfferMessage(p, r, ch, sh).value, sh.transcriptSignature)
  {
    hide Common, SignatureMessage, Validate, ClientHelloFromFrame, HelloOnto, BundleBytes;
    if AnswerClientHello(p, r, f, now).Ok? {
      SameHash(p, ch, AnswerTo(r, ch, NoSignature()), AnswerClientHello(p, r, f, now).value.1);
    }
  }

  lemma InitiatorAccepts(p: Primitives, i: Party, f: Frame, sh: ServerHello, now: u64)
    requires ServerHelloFromFrame(f) == Ok(sh) && Validate(p, sh.identityBundle, i.pinned, now).Ok?
    requires i.clientHello.Some? && Common(i.clientHello.value.capabilityBits, sh.acceptedCapabilityBits) != 0
    requires 0 < sh.acceptedMaxPayload <= i.policy.maxPayload
    requires var m := ServerMessage(p, i.clientHello.value, sh, i.bundle.x25519StaticPublic,
                                    sh.identityBundle.x25519StaticPublic);
             m.Ok? && p.verify(sh.identityBundle.ed25519Public, m.value, sh.transcriptSignature)
    ensures CheckServerHello(p, i, f, now) == Ok(sh)
  {
    hide Common, ServerMessage, Validate, ServerHelloFromFrame;
  }

  /** The world in which only one pair of hellos was hashed and nobody is honest. */
  ghost function Witness(ch: ClientHello, sh: ServerHello): World {
    World([], [], {}, {}, {}, {}, HashedBy(HashInput(ch, sh)))
  }

  /** After undisturbed hellos the stored state is what the guarantees about outputs need. */
  lemma HellosLeave(p: Primitives, i: Party, r: Party, f: Frame, ch: ClientHello, now: u64, later: u64)
    requires WellFormed(p, i) && WellFormed(p, r) && ch == HelloOf(i)
    requires AnswerClientHello(p, r, f, now).Ok? && AnswerClientHello(p, r, f, now).value.0 == ch
    requires Acceptable(p, r.bundle, i.pinned, later)
    requires i.policy.maxPayload != 0 && r.policy.maxPayload != 0
    ensures var sh := AnswerClientHello(p, r, f, now).value.1;
            && HashInput(ch, sh).Ok? && sh.ephPublic == r.ephPublic && sh.identityBundle == r.bundle
            && InitiatorInv(p, Witness(ch, sh), i.(clientHello := Some(ch), serverHello := Some(sh)))
            && ResponderInv(p, Witness(ch, sh), HandleClientHello(p, r, f, now).1)
  {
    hide HashInput, Common, ServerMessage, BundleMessage, AnswerClientHello, ServerHelloToFrame, AcceptedMaxPayload;
    AnsweredClientHello(p, r, f, now);
    var sh := AnswerClientHello(p, r, f, now).value.1;
    CommonBits(i.policy.capabilityBits, r.policy.capabilityBits);
    assert HelloOf(i.(clientHello := Some(ch), serverHello := Some(sh))) == HelloOf(i);
    assert 0 < AcceptedMaxPayload(ch, r.policy) <= i.policy.maxPayload by {
      SmallerPayload(i, r);
    }
    assert forall key :: !Honest(Witness(ch, sh), key);
  }

  lemma SmallerPayload(i: Party, r: Party)
    requires i.policy.maxPayload != 0 && r.policy.maxPayload != 0
    ensures 0 < AcceptedMaxPayload(HelloOf(i), r.policy) <= i.policy.maxPayload
  {}

  /** The whole handshake on an undisturbed network, with compatible policies: the responder
      accepts the finish exactly when the initiator can finalize, which is when none of the four
      shared secrets fails on a low order point, and both then hold mirrored outputs with the same rekey limits. */
  lemma HonestHandshakeCompletes(p: Primitives, i: Party, r: Party, now: u64, later: u64)
    requires p.DhCommutes() && p.SignaturesVerify()
    requires CanSign(p, i.identity) && CanSign(p, r.identity) && WellFormed(p, i) && WellFormed(p, r)
    requires |i.bundle.keyId| <= 65345 && |r.bundle.keyId| <= 65281
    requires Validate(p, i.bundle, r.pinned, now).Ok? && Validate(p, r.bundle, i.pinned, later).Ok?
    requires Common(i.policy.capabilityBits, r.policy.capabilityBits) != 0
    requires i.policy.maxPayload != 0 && r.policy.maxPayload != 0
    ensures var (hello, i1) := BuildClientHello(i);
            && hello.Ok?
            && var (answer, r1) := HandleClientHello(p, r, hello.value, now);
            && answer.Ok?
            && var i2 := HandleServerHello(p, i1, answer.value, later).1;
            && var finish := BuildClientFinish(p, i2);
            && finish.Ok?
            && var a, b := Finalize(p, i2), HandleClientFinish(p, r1, finish.value);
            && (b.Ok? <==> a.Ok?)
            && (a.Ok? <==> SharesSecrets(p, i.ephPrivate, i.identity.x25519Private,
                                           r.ephPublic, r.bundle.x25519StaticPublic))
            && (a.Ok? ==> MirroredOutputs(a.value, b.value)
                          && a.value.maxRekeyBytes == b.value.maxRekeyBytes
                          && a.value.maxRekeySeconds == b.value.maxRekeySeconds)
  {
    hide Common, TranscriptHash, SignatureMessage, Validate, AnswerClientHello, CheckServerHello, CanSign,
         SharesSecrets, ClientHelloToFrame, ServerHelloToFrame, ClientHelloFromFrame, ServerHelloFromFrame,
         InitiatorInv, ResponderInv, MirroredOutputs, Finalize, HandleClientFinish, BuildClientFinish,
         Primitives.DhCommutes;
    HonestHellosSucceed(p, i, r, now, later);
    var (hello, i1) := BuildClientHello(i);
    var (answer, r1) := HandleClientHello(p, r, hello.value, now);
    var i2 := HandleServerHello(p, i1, answer.value, later).1;
    var (ch, sh) := AnswerClientHello(p, r, hello.value, now).value;
    ValidatesExactly(p, r.bundle, i.pinned, later);
    HellosLeave(p, i, r, hello.value, ch, now, later);
    FinishBuilds(p, i2);
    UnmodifiedFinish(p, Witness(ch, sh), i2, r1);
  }

  /** None of the four Diffie-Hellman operations of an initiator fails. */
  ghost predicate SharesSecrets(p: Primitives, eph: Bytes32, identityKey: Bytes32,
                                peerEphemeral: Bytes32, peerStatic: Bytes32) {
    && X25519Shared(p, eph, peerEphemeral).Ok? && X25519Shared(p, eph, peerStatic).Ok?
    && X25519Shared(p, identityKey, peerEphemeral).Ok? && X25519Shared(p, identityKey, peerStatic).Ok?
  }

  lemma FinishBuilds(p: Primitives, i: Party)
    requires CanSign(p, i.identity) && i.clientHello.Some? && i.serverHello.Some?
    requires HashInput(i.clientHello.value, i.serverHello.value).Ok?
    ensures BuildClientFinish(p, i).Ok?
    ensures var sh := i.serverHello.value;
            Finalize(p, i).Ok? <==>
              SharesSecrets(p, i.ephPrivate, i.identity.x25519Private, sh.ephPublic,
                            sh.identityBundle.x25519StaticPublic)
  {
    hide HashInput, SignatureMessage, ClientFinishToFrame, DeriveTransportKeys, Common;
  }

  /** Hellos are stored before they are framed: also those whose frame is refused for its size. */
  lemma StoredThoughUnframed(p: Primitives, s: Party, f: Frame, now: u64)
    ensures |s.bundle.keyId| > 65345 ==> BuildClientHello(s).0.Err?
    ensures BuildClientHello(s).1.clientHello.Some?
    ensures AnswerClientHello(p, s, f, now).Ok? && |s.bundle.keyId| > 65281 ==>
              var (answer, s') := HandleClientHello(p, s, f, now);
              answer.Err? && s'.clientHello.Some? && s'.serverHello.Some?
  {
    hide AnswerClientHello, ClientHelloToFrame, ServerHelloToFrame, AllInCommon, Acceptable;
    ClientHelloRoundTrip(HelloOf(s), []);
    if AnswerClientHello(p, s, f, now).Ok? {
      AnsweredClientHello(p, s, f, now);
      ServerHelloRoundTrip(AnswerClientHello(p, s, f, now).value.1, []);
    }
  }
}
