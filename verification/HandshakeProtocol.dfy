/** The handshake as a protocol: any number of honest initiators and responders, with shared
    or separate identities, and a network that delivers any frames at all, except signatures
    of honest keys that those keys never made. */
module HandshakeProtocol {
  import opened Results
  import opened Bytes
  import opened Frames
  import opened HandshakeTypes
  import opened HandshakeMessages
  import opened Handshakes

  /** `responder` signed a server hello `sh` over `ch`; `initiator` signed a finish over both. */
  datatype Offer = Offer(responder: nat, ch: ClientHello, sh: ServerHello)
  datatype Consent = Consent(initiator: nat, ch: ClientHello, sh: ServerHello)

  datatype Signed = Signed(key: Bytes32, message: Bytes)

  datatype World = World(
    initiators: seq<Party>,
    responders: seq<Party>,
    bundles: set<IdentityBundle>,  // the identity bundles that honest keys signed
    offers: set<Offer>,
    consents: set<Consent>,
    signed: set<Signed>,   // every message an honest key signed
    hashed: set<Bytes>)    // the transcripts behind every hello accepted, answered or signed

  datatype Event =
    | BuildHello(i: nat)
    | ServerHelloArrives(i: nat, f: Frame, now: u64)
    | BuildFinish(i: nat)
    | ClientHelloArrives(r: nat, f: Frame, now: u64)

  /** The keys of honest endpoints. */
  ghost predicate Honest(w: World, key: Bytes32) {
    || (exists i | 0 <= i < |w.initiators| :: w.initiators[i].identity.ed25519Public == key)
    || (exists r | 0 <= r < |w.responders| :: w.responders[r].identity.ed25519Public == key)
  }

  /** A signature that verifies for an honest key on the message an endpoint checks it
      against was made by that key. */
  ghost predicate NoForgery(p: Primitives, w: World, key: Bytes32, message: Result<Bytes>, signature: Bytes64) {
    Honest(w, key) && message.Ok? && p.verify(key, message.value, signature) ==>
      Signed(key, message.value) in w.signed
  }

  ghost predicate BundleUnforged(p: Primitives, w: World, b: IdentityBundle) {
    NoForgery(p, w, b.ed25519Public, BundleMessage(b), b.signature)
  }

  /** The network presents no forgery in a client hello, where a bundle is checked. */
  ghost predicate ClientHelloUnforged(p: Primitives, w: World, f: Frame) {
    ClientHelloFromFrame(f).Ok? ==> BundleUnforged(p, w, ClientHelloFromFrame(f).value.identityBundle)
  }

  /** The network presents no forgery in a server hello: the messages checked are the bundle's
      and the one over the initiator's own hello and the one received. */
  ghost predicate ServerHelloUnforged(p: Primitives, w: World, s: Party, f: Frame) {
    ServerHelloFromFrame(f).Ok? && s.clientHello.Some? ==>
      var sh := ServerHelloFromFrame(f).value;
      BundleUnforged(p, w, sh.identityBundle)
      && NoForgery(p, w, sh.identityBundle.ed25519Public,
                ServerMessage(p, s.clientHello.value, sh, s.bundle.x25519StaticPublic,
                              sh.identityBundle.x25519StaticPublic),
                sh.transcriptSignature)
  }

  /** The same for a client finish, checked against the responder's stored hellos. */
  ghost predicate ClientFinishUnforged(p: Primitives, w: World, s: Party, f: Frame) {
    ClientFinishFromFrame(f).Ok? && s.clientHello.Some? && s.serverHello.Some? ==>
      var ch := s.clientHello.value;
      NoForgery(p, w, ch.identityBundle.ed25519Public,
                ClientMessage(p, ch, s.serverHello.value, ch.identityBundle.x25519StaticPublic,
                              s.bundle.x25519StaticPublic),
                ClientFinishFromFrame(f).value.transcriptSignature)
  }

  /** Keys fit together, as IdentityKeypairFromSeeds and SignedIdentityBundle set them up. */
  ghost predicate WellFormed(p: Primitives, s: Party) {
    && s.ephPublic == p.x25519Public(s.ephPrivate)
    && s.bundle.x25519StaticPublic == p.x25519Public(s.identity.x25519Private)
    && s.bundle.ed25519Public == s.identity.ed25519Public
  }

  ghost predicate IsBundleMessage(m: Bytes) {
    exists b :: BundleMessage(b) == Ok(m)
  }

  /** `x` is the signature of a key on a bundle that names that key. */
  ghost predicate SignsBundle(x: Signed, b: IdentityBundle) {
    x.key == b.ed25519Public && BundleMessage(b) == Ok(x.message)
  }

  /** At the start nothing was exchanged and honest keys signed nothing but their bundles. */
  ghost predicate Init(p: Primitives, w: World) {
    && (forall s | s in w.initiators || s in w.responders ::
          WellFormed(p, s) && s.clientHello == None && s.serverHello == None)
    && w.offers == {} && w.consents == {} && w.hashed == {}
    && forall x | x in w.signed :: exists b | b in w.bundles :: SignsBundle(x, b)
  }

  ghost predicate Enabled(p: Primitives, w: World, ev: Event) {
    match ev
    case BuildHello(i) => i < |w.initiators|
    case ServerHelloArrives(i, f, now) =>
      i < |w.initiators| && ServerHelloUnforged(p, w, w.initiators[i], f)
    case BuildFinish(i) => i < |w.initiators|
    case ClientHelloArrives(r, f, now) => r < |w.responders| && ClientHelloUnforged(p, w, f)
  }

  function HashedBy(r: Result<Bytes>): set<Bytes> {
    if r.Ok? then {r.value} else {}
  }

  /** What the initiator signs in its finish, with its stored hellos. */
  function ConsentMessage(p: Primitives, s: Party): Result<Bytes>
    requires s.clientHello.Some? && s.serverHello.Some?
  {
    ClientMessage(p, s.clientHello.value, s.serverHello.value, s.bundle.x25519StaticPublic,
                  s.serverHello.value.identityBundle.x25519StaticPublic)
  }

  function OfferMessage(p: Primitives, s: Party, ch: ClientHello, sh: ServerHello): Result<Bytes> {
    ServerMessage(p, ch, sh, ch.identityBundle.x25519StaticPublic, s.bundle.x25519StaticPublic)
  }

  function StepHello(w: World, i: nat): World
    requires i < |w.initiators|
  {
    w.(initiators := w.initiators[i := BuildClientHello(w.initiators[i]).1])
  }

  /** A passing server hello is stored and its transcript was hashed. */
  function StepServerHello(p: Primitives, w: World, i: nat, f: Frame, now: u64): World
    requires i < |w.initiators|
  {
    var r := CheckServerHello(p, w.initiators[i], f, now);
    if r.Err? then w else
    var s := HandleServerHello(p, w.initiators[i], f, now).1;
    w.(initiators := w.initiators[i := s],
       hashed := if s.clientHello.None? then w.hashed
                 else w.hashed + HashedBy(HashInput(s.clientHello.value, r.value)))
  }

  function StepFinish(p: Primitives, w: World, i: nat): World
    requires i < |w.initiators|
  {
    var s := w.initiators[i];
    if BuildClientFinish(p, s).Err? then w else
    var ch, sh := s.clientHello.value, s.serverHello.value;
    w.(consents := w.consents + {Consent(i, ch, sh)},
       signed := w.signed + {Signed(s.identity.ed25519Public, ConsentMessage(p, s).value)},
       hashed := w.hashed + HashedBy(HashInput(ch, sh)))
  }

  /** An answered client hello: both hellos are stored, the answer is signed and hashed. */
  function StepClientHello(p: Primitives, w: World, r: nat, f: Frame, now: u64): World
    requires r < |w.responders|
  {
    var s := w.responders[r];
    var answer := AnswerClientHello(p, s, f, now);
    if answer.Err? then w else
    var (ch, sh) := answer.value;
    w.(responders := w.responders[r := HandleClientHello(p, s, f, now).1],
       offers := w.offers + {Offer(r, ch, sh)},
       signed := w.signed + {Signed(s.identity.ed25519Public, OfferMessage(p, s, ch, sh).value)},
       hashed := w.hashed + HashedBy(HashInput(ch, sh)))
  }

  function Step(p: Primitives, w: World, ev: Event): World {
    match ev
    case BuildHello(i) => if i < |w.initiators| then StepHello(w, i) else w
    case ServerHelloArrives(i, f, now) => if i < |w.initiators| then StepServerHello(p, w, i, f, now) else w
    case BuildFinish(i) => if i < |w.initiators| then StepFinish(p, w, i) else w
    case ClientHelloArrives(r, f, now) => if r < |w.responders| then StepClientHello(p, w, r, f, now) else w
  }

  ghost predicate IsRun(p: Primitives, ws: seq<World>, events: seq<Event>) {
    && |ws| == |events| + 1
    && Init(p, ws[0])
    && forall i | 0 <= i < |events| :: Enabled(p, ws[i], events[i]) && ws[i + 1] == Step(p, ws[i], events[i])
  }

  /** SHA-256 does not collide on the transcripts recorded in the run. */
  ghost predicate CollisionFree(p: Primitives, w: World) {
    forall x, y | x in w.hashed && y in w.hashed && p.sha256(x) == p.sha256(y) :: x == y
  }

  // ---- The invariant ----

  /** A peer's bundle as it is stored: of a version and algorithm in use, from a pinned key, and
      signed by that key if it is honest. */
  ghost predicate Vouched(w: World, s: Party, b: IdentityBundle) {
    && b.bundleVersion == 1 && b.sigAlg == 1 && b.ed25519Public in s.pinned
    && BundleMessage(b).Ok?
    && (Honest(w, b.ed25519Public) ==> Signed(b.ed25519Public, BundleMessage(b).value) in w.signed)
  }

  /** An initiator's stored hellos: its own, and one that passed every check. */
  ghost predicate InitiatorInv(p: Primitives, w: World, s: Party) {
    && WellFormed(p, s)
    && (s.clientHello.Some? ==> s.clientHello.value == HelloOf(s))
    && (s.serverHello.Some? ==>
          && s.clientHello.Some?
          && var ch, sh := s.clientHello.value, s.serverHello.value;
          && Common(ch.capabilityBits, sh.acceptedCapabilityBits) != 0
          && 0 < sh.acceptedMaxPayload <= s.policy.maxPayload
          && Vouched(w, s, sh.identityBundle)
          && HashInput(ch, sh).Ok? && HashInput(ch, sh).value in w.hashed
          && (Honest(w, sh.identityBundle.ed25519Public) ==>
                Signed(sh.identityBundle.ed25519Public,
                       ServerMessage(p, ch, sh, s.bundle.x25519StaticPublic,
                                     sh.identityBundle.x25519StaticPublic).value) in w.signed))
  }

  /** A responder's stored hellos: the one received and its own answer to it. */
  ghost predicate ResponderInv(p: Primitives, w: World, s: Party) {
    && WellFormed(p, s)
    && (s.clientHello.Some? <==> s.serverHello.Some?)
    && (s.clientHello.Some? ==>
          && var ch, sh := s.clientHello.value, s.serverHello.value;
          && sh == AnswerTo(s, ch, sh.transcriptSignature)
          && Common(ch.capabilityBits, s.policy.capabilityBits) != 0
          && AcceptedMaxPayload(ch, s.policy) != 0
          && Vouched(w, s, ch.identityBundle)
          && HashInput(ch, sh).Ok? && HashInput(ch, sh).value in w.hashed)
  }

  /** The responder as it was when it signed the server hello. */
  function Offering(w: World, o: Offer): Party
    requires o.responder < |w.responders|
  {
    w.responders[o.responder].(clientHello := Some(o.ch), serverHello := Some(o.sh))
  }

  ghost predicate OfferInv(p: Primitives, w: World, o: Offer) {
    o.responder < |w.responders| && ResponderInv(p, w, Offering(w, o))
  }

  /** The initiator as it was when it signed the finish. */
  function Consenting(w: World, c: Consent): Party
    requires c.initiator < |w.initiators|
  {
    w.initiators[c.initiator].(clientHello := Some(c.ch), serverHello := Some(c.sh))
  }

  ghost predicate ConsentInv(p: Primitives, w: World, c: Consent) {
    c.initiator < |w.initiators| && InitiatorInv(p, w, Consenting(w, c))
  }

  /** Honest keys sign only bundles, server hellos over offers and finishes over consents. */
  ghost predicate SignedForReason(p: Primitives, w: World, x: Signed) {
    || (exists b | b in w.bundles :: SignsBundle(x, b))
    || (exists o | o in w.offers :: SignsOffer(p, w, x, o))
    || (exists c | c in w.consents :: SignsConsent(p, w, x, c))
  }

  ghost predicate SignsOffer(p: Primitives, w: World, x: Signed, o: Offer) {
    && o.responder < |w.responders|
    && x.key == w.responders[o.responder].identity.ed25519Public
    && ServerMessage(p, o.ch, o.sh, o.ch.identityBundle.x25519StaticPublic,
                     w.responders[o.responder].bundle.x25519StaticPublic) == Ok(x.message)
  }

  ghost predicate SignsConsent(p: Primitives, w: World, x: Signed, c: Consent) {
    && c.initiator < |w.initiators|
    && x.key == w.initiators[c.initiator].identity.ed25519Public
    && ClientMessage(p, c.ch, c.sh, w.initiators[c.initiator].bundle.x25519StaticPublic,
                     c.sh.identityBundle.x25519StaticPublic) == Ok(x.message)
  }

  ghost predicate Inv(p: Primitives, w: World) {
    && (forall i | 0 <= i < |w.initiators| :: InitiatorInv(p, w, w.initiators[i]))
    && (forall r | 0 <= r < |w.responders| :: ResponderInv(p, w, w.responders[r]))
    && (forall o | o in w.offers :: OfferInv(p, w, o))
    && (forall c | c in w.consents :: ConsentInv(p, w, c))
    && (forall x | x in w.signed :: SignedForReason(p, w, x))
  }

  ghost predicate SameButHellos(s: Party, s': Party) {
    s' == s.(clientHello := s'.clientHello, serverHello := s'.serverHello)
  }

  /** What a step leaves as it was: everything but stored hellos. */
  ghost predicate SamePeople(w: World, w': World) {
    && |w'.initiators| == |w.initiators| && |w'.responders| == |w.responders|
    && (forall i | 0 <= i < |w.initiators| ::
          SameButHellos(w.initiators[i], w'.initiators[i]))
    && (forall r | 0 <= r < |w.responders| ::
          SameButHellos(w.responders[r], w'.responders[r]))
  }

  ghost predicate GrowsTo(w: World, w': World) {
    && SamePeople(w, w')
    && w'.bundles == w.bundles
    && w.offers <= w'.offers && w.consents <= w'.consents
    && w.signed <= w'.signed && w.hashed <= w'.hashed
  }

  lemma HonestStays(w: World, w': World, key: Bytes32)
    requires SamePeople(w, w')
    ensures Honest(w, key) <==> Honest(w', key)
  {
    if Honest(w', key) {
      if i :| 0 <= i < |w'.initiators| && w'.initiators[i].identity.ed25519Public == key {
        assert w.initiators[i].identity.ed25519Public == key;
      } else {
        var r :| 0 <= r < |w'.responders| && w'.responders[r].identity.ed25519Public == key;
        assert w.responders[r].identity.ed25519Public == key;
      }
    }
    if Honest(w, key) {
      if i :| 0 <= i < |w.initiators| && w.initiators[i].identity.ed25519Public == key {
        assert w'.initiators[i].identity.ed25519Public == key;
      } else {
        var r :| 0 <= r < |w.responders| && w.responders[r].identity.ed25519Public == key;
        assert w'.responders[r].identity.ed25519Public == key;
      }
    }
  }

  lemma VouchedStays(w: World, w': World, s: Party, b: IdentityBundle)
    requires Vouched(w, s, b) && GrowsTo(w, w')
    ensures Vouched(w', s, b)
  {
    hide BundleMessage, Honest;
    HonestStays(w, w', b.ed25519Public);
  }

  lemma InitiatorStays(p: Primitives, w: World, w': World, s: Party)
    requires InitiatorInv(p, w, s) && GrowsTo(w, w')
    ensures InitiatorInv(p, w', s)
  {
    hide HashInput, ServerMessage, Common, Honest, Vouched;
    if s.serverHello.Some? {
      VouchedStays(w, w', s, s.serverHello.value.identityBundle);
      HonestStays(w, w', s.serverHello.value.identityBundle.ed25519Public);
    }
  }

  lemma ResponderStays(p: Primitives, w: World, w': World, s: Party)
    requires ResponderInv(p, w, s) && GrowsTo(w, w')
    ensures ResponderInv(p, w', s)
  {
    hide HashInput, Common, AcceptedMaxPayload, Vouched;
    if s.clientHello.Some? {
      VouchedStays(w, w', s, s.clientHello.value.identityBundle);
    }
  }

  lemma OfferStays(p: Primitives, w: World, w': World, o: Offer)
    requires OfferInv(p, w, o) && GrowsTo(w, w')
    ensures OfferInv(p, w', o)
  {
    hide ResponderInv;
    assert SameButHellos(w.responders[o.responder], w'.responders[o.responder]);
    ResponderStays(p, w, w', Offering(w, o));
    assert Offering(w', o) == Offering(w, o);
  }

  lemma ConsentStays(p: Primitives, w: World, w': World, c: Consent)
    requires ConsentInv(p, w, c) && GrowsTo(w, w')
    ensures ConsentInv(p, w', c)
  {
    hide InitiatorInv;
    assert SameButHellos(w.initiators[c.initiator], w'.initiators[c.initiator]);
    InitiatorStays(p, w, w', Consenting(w, c));
    assert Consenting(w', c) == Consenting(w, c);
  }

  lemma ReasonStays(p: Primitives, w: World, w': World, x: Signed)
    requires SignedForReason(p, w, x) && GrowsTo(w, w')
    ensures SignedForReason(p, w', x)
  {
    hide ServerMessage, ClientMessage, BundleMessage;
    if o :| o in w.offers && SignsOffer(p, w, x, o) {
      assert SignsOffer(p, w', x, o);
    } else if c :| c in w.consents && SignsConsent(p, w, x, c) {
      assert SignsConsent(p, w', x, c);
    }
  }

  /** A step that changes at most one party and adds at most one signature for a reason. */
  lemma StepKeepsRest(p: Primitives, w: World, w': World)
    requires Inv(p, w) && GrowsTo(w, w')
    requires forall i | 0 <= i < |w.initiators| ::
               w'.initiators[i] == w.initiators[i] || InitiatorInv(p, w', w'.initiators[i])
    requires forall r | 0 <= r < |w.responders| ::
               w'.responders[r] == w.responders[r] || ResponderInv(p, w', w'.responders[r])
    requires forall o | o in w'.offers :: o in w.offers || OfferInv(p, w', o)
    requires forall c | c in w'.consents :: c in w.consents || ConsentInv(p, w', c)
    requires forall x | x in w'.signed :: x in w.signed || SignedForReason(p, w', x)
    ensures Inv(p, w')
  {
    hide InitiatorInv, ResponderInv, SignedForReason, ConsentInv, OfferInv, SameButHellos;
    forall r | 0 <= r < |w'.responders|
      ensures ResponderInv(p, w', w'.responders[r])
    {
      if w'.responders[r] == w.responders[r] {
        ResponderStays(p, w, w', w.responders[r]);
      }
    }
    forall o | o in w'.offers
      ensures OfferInv(p, w', o)
    {
      if o in w.offers {
        OfferStays(p, w, w', o);
      }
    }
    forall c | c in w'.consents
      ensures ConsentInv(p, w', c)
    {
      if c in w.consents {
        ConsentStays(p, w, w', c);
      }
    }
    forall i | 0 <= i < |w'.initiators|
      ensures InitiatorInv(p, w', w'.initiators[i])
    {
      if w'.initiators[i] == w.initiators[i] {
        InitiatorStays(p, w, w', w.initiators[i]);
      }
    }
    forall x | x in w'.signed
      ensures SignedForReason(p, w', x)
    {
      if x in w.signed {
        ReasonStays(p, w, w', x);
      }
    }
  }

  lemma HelloKeeps(p: Primitives, w: World, i: nat)
    requires Inv(p, w) && i < |w.initiators|
    ensures Inv(p, StepHello(w, i)) && GrowsTo(w, StepHello(w, i))
  {
    hide HashInput, ServerMessage, Common, SignedForReason, ResponderInv, OfferInv, ConsentInv, Honest;
    var w', s := StepHello(w, i), w.initiators[i];
    assert InitiatorInv(p, w, s);
    assert HelloOf(w'.initiators[i]) == HelloOf(s);
    InitiatorStays(p, w, w', s);
    StepKeepsRest(p, w, w');
  }

  /** Everything a bundle is checked for. */
  ghost predicate Acceptable(p: Primitives, b: IdentityBundle, pinned: set<Bytes32>, now: u64) {
    && b.bundleVersion == 1 && b.sigAlg == 1 && b.notBeforeUnix <= now <= b.notAfterUnix
    && b.ed25519Public in pinned
    && BundleMessage(b).Ok? && p.verify(b.ed25519Public, BundleMessage(b).value, b.signature)
  }

  lemma ValidatesExactly(p: Primitives, b: IdentityBundle, pinned: set<Bytes32>, now: u64)
    ensures Validate(p, b, pinned, now).Ok? <==> Acceptable(p, b, pinned, now)
  {
    hide BundleMessage;
  }

  /** What a passing server hello was checked for. */
  lemma CheckedServerHello(p: Primitives, s: Party, f: Frame, now: u64)
    requires CheckServerHello(p, s, f, now).Ok?
    ensures var sh := CheckServerHello(p, s, f, now).value;
            && ServerHelloFromFrame(f) == Ok(sh) && Acceptable(p, sh.identityBundle, s.pinned, now)
            && s.clientHello.Some?
            && var ch := s.clientHello.value;
            && Common(ch.capabilityBits, sh.acceptedCapabilityBits) != 0
            && 0 < sh.acceptedMaxPayload <= s.policy.maxPayload
            && var m := ServerMessage(p, ch, sh, s.bundle.x25519StaticPublic, sh.identityBundle.x25519StaticPublic);
            && m.Ok? && HashInput(ch, sh).Ok?
            && p.verify(sh.identityBundle.ed25519Public, m.value, sh.transcriptSignature)
  {
    hide ServerHelloFromFrame, Common, SignatureMessage, TranscriptBytes, Validate, Acceptable;
    if ServerHelloFromFrame(f).Ok? {
      ValidatesExactly(p, ServerHelloFromFrame(f).value.identityBundle, s.pinned, now);
    }
  }

  lemma ServerHelloKeeps(p: Primitives, w: World, i: nat, f: Frame, now: u64)
    requires Inv(p, w) && i < |w.initiators| && ServerHelloUnforged(p, w, w.initiators[i], f)
    ensures Inv(p, StepServerHello(p, w, i, f, now)) && GrowsTo(w, StepServerHello(p, w, i, f, now))
  {
    hide HashInput, ServerMessage, BundleMessage, Common, SignedForReason, ResponderInv, OfferInv, ConsentInv,
         Honest, CheckServerHello, ServerHelloFromFrame;
    var w', s := StepServerHello(p, w, i, f, now), w.initiators[i];
    assert InitiatorInv(p, w, s);
    if CheckServerHello(p, s, f, now).Ok? {
      CheckedServerHello(p, s, f, now);
      var sh := CheckServerHello(p, s, f, now).value;
      HonestStays(w, w', sh.identityBundle.ed25519Public);
      assert w'.initiators[i] == s.(serverHello := Some(sh));
      assert HelloOf(w'.initiators[i]) == HelloOf(s);
      assert InitiatorInv(p, w', w'.initiators[i]);
    }
    StepKeepsRest(p, w, w');
  }

  lemma FinishKeeps(p: Primitives, w: World, i: nat)
    requires Inv(p, w) && i < |w.initiators|
    ensures Inv(p, StepFinish(p, w, i)) && GrowsTo(w, StepFinish(p, w, i))
  {
    hide HashInput, SignatureMessage, Common, ResponderInv, InitiatorInv, OfferInv, Honest, ClientFinishToFrame;
    var w', s := StepFinish(p, w, i), w.initiators[i];
    if BuildClientFinish(p, s).Ok? {
      var c := Consent(i, s.clientHello.value, s.serverHello.value);
      assert c in w'.consents;
      assert SignsConsent(p, w', Signed(s.identity.ed25519Public, ConsentMessage(p, s).value), c);
      assert Consenting(w', c) == s && InitiatorInv(p, w, s);
      InitiatorStays(p, w, w', s);
    }
    StepKeepsRest(p, w, w');
  }

  /** Every one of these capability bits is among `caps`. */
  predicate Within(bits: bv32, caps: bv32) {
    bits & caps == bits
  }

  /** Bits lie within `accepted` exactly when they lie within both offers: `accepted` is all that
      the two have in common. */
  ghost predicate AllInCommon(accepted: bv32, a: bv32, b: bv32) {
    forall bits: bv32 :: Within(bits, accepted) <==> Within(bits, a) && Within(bits, b)
  }

  /** The largest limit within both. */
  predicate LargestWithin(limit: u32, a: u32, b: u32) {
    limit <= a && limit <= b && (limit == a || limit == b)
  }

  lemma CommonIsAll(a: bv32, b: bv32)
    ensures AllInCommon(Common(a, b), a, b)
  {
    hide Within;
    forall bits: bv32
      ensures Within(bits, Common(a, b)) <==> Within(bits, a) && Within(bits, b)
    {
      WithinCommon(bits, a, b);
    }
  }

  lemma WithinCommon(bits: bv32, a: bv32, b: bv32)
    ensures Within(bits, Common(a, b)) <==> Within(bits, a) && Within(bits, b)
  {
    hide Common, Within;
    WithinMeans(bits, Common(a, b));
    WithinMeans(bits, a);
    WithinMeans(bits, b);
    CommonAbsorbsFirst(bits, a, b);
    CommonAbsorbsSecond(bits, a, b);
    CommonAssociates(bits, a, b);
  }

  lemma WithinMeans(bits: bv32, caps: bv32)
    ensures Within(bits, caps) <==> Common(bits, caps) == bits
  {}

  lemma CommonAbsorbsFirst(x: bv32, a: bv32, b: bv32)
    ensures Common(Common(x, Common(a, b)), a) == Common(x, Common(a, b))
  {}

  lemma CommonAbsorbsSecond(x: bv32, a: bv32, b: bv32)
    ensures Common(Common(x, Common(a, b)), b) == Common(x, Common(a, b))
  {}

  lemma CommonAssociates(x: bv32, a: bv32, b: bv32)
    ensures Common(Common(x, a), b) == Common(x, Common(a, b))
  {}

  lemma AcceptsLargest(ch: ClientHello, policy: HandshakePolicy)
    ensures LargestWithin(AcceptedMaxPayload(ch, policy), ch.requestedMaxPayload, policy.maxPayload)
  {}

  /** What an answered client hello was checked for, and what the answer is. */
  lemma AnsweredClientHello(p: Primitives, s: Party, f: Frame, now: u64)
    requires AnswerClientHello(p, s, f, now).Ok?
    ensures var (ch, sh) := AnswerClientHello(p, s, f, now).value;
            && ClientHelloFromFrame(f) == Ok(ch) && Acceptable(p, ch.identityBundle, s.pinned, now)
            && sh == AnswerTo(s, ch, sh.transcriptSignature)
            && Common(ch.capabilityBits, s.policy.capabilityBits) != 0
            && AcceptedMaxPayload(ch, s.policy) != 0
            && AllInCommon(sh.acceptedCapabilityBits, ch.capabilityBits, s.policy.capabilityBits)
            && LargestWithin(sh.acceptedMaxPayload, ch.requestedMaxPayload, s.policy.maxPayload)
            && OfferMessage(p, s, ch, sh).Ok? && HashInput(ch, sh).Ok?
            && SignEd25519(p, s.identity, OfferMessage(p, s, ch, sh).value) == Ok(sh.transcriptSignature)
  {
    hide ClientHelloFromFrame, Common, SignatureMessage, Validate, Acceptable, ClientHelloBody, HelloOnto, BundleBytes,
         AllInCommon, AcceptedMaxPayload;
    var ch := ClientHelloFromFrame(f).value;
    ValidatesExactly(p, ch.identityBundle, s.pinned, now);
    CommonIsAll(ch.capabilityBits, s.policy.capabilityBits);
    AcceptsLargest(ch, s.policy);
    var unsigned, sh := AnswerTo(s, ch, NoSignature()), AnswerClientHello(p, s, f, now).value.1;
    assert TranscriptBytes(ch, unsigned) == TranscriptBytes(ch, sh);
  }

  lemma ClientHelloKeeps(p: Primitives, w: World, r: nat, f: Frame, now: u64)
    requires Inv(p, w) && r < |w.responders| && ClientHelloUnforged(p, w, f)
    ensures Inv(p, StepClientHello(p, w, r, f, now)) && GrowsTo(w, StepClientHello(p, w, r, f, now))
  {
    hide HashInput, ServerMessage, BundleMessage, Common, InitiatorInv, ConsentInv, Honest, AnswerClientHello,
         ClientHelloFromFrame, ServerHelloToFrame, AcceptedMaxPayload, AllInCommon;
    var w', s := StepClientHello(p, w, r, f, now), w.responders[r];
    assert ResponderInv(p, w, s);
    if AnswerClientHello(p, s, f, now).Ok? {
      AnsweredClientHello(p, s, f, now);
      var (ch, sh) := AnswerClientHello(p, s, f, now).value;
      HonestStays(w, w', ch.identityBundle.ed25519Public);
      var o := Offer(r, ch, sh);
      assert o in w'.offers;
      assert SignsOffer(p, w', Signed(s.identity.ed25519Public, OfferMessage(p, s, ch, sh).value), o);
      assert ResponderInv(p, w', w'.responders[r]) && Offering(w', o) == w'.responders[r];
    }
    StepKeepsRest(p, w, w');
  }

  lemma StepKeepsInv(p: Primitives, w: World, ev: Event)
    requires Inv(p, w) && Enabled(p, w, ev)
    ensures Inv(p, Step(p, w, ev)) && GrowsTo(w, Step(p, w, ev))
  {
    hide Inv, StepHello, StepServerHello, StepFinish, StepClientHello;
    match ev
    case BuildHello(i) => HelloKeeps(p, w, i);
    case ServerHelloArrives(i, f, now) => ServerHelloKeeps(p, w, i, f, now);
    case BuildFinish(i) => FinishKeeps(p, w, i);
    case ClientHelloArrives(r, f, now) => ClientHelloKeeps(p, w, r, f, now);
  }

  lemma RunKeepsInv(p: Primitives, ws: seq<World>, events: seq<Event>)
    requires IsRun(p, ws, events)
    ensures forall w | w in ws :: Inv(p, w)
  {
    hide Inv, Step, Enabled, Init;
    InitInv(p, ws[0]);
    for i := 0 to |events|
      invariant forall j | 0 <= j <= i :: Inv(p, ws[j])
    {
      StepKeepsInv(p, ws[i], events[i]);
    }
  }

  lemma InitInv(p: Primitives, w: World)
    requires Init(p, w)
    ensures Inv(p, w)
  {
    hide HashInput;
  }
}
