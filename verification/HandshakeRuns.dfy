/** An honest run of the handshake protocol exists: what agreement presupposes can come about. */
module HandshakeRuns {
  import opened Results
  import opened Bytes
  import opened Frames
  import opened HandshakeTypes
  import opened HandshakeMessages
  import opened Handshakes
  import opened HandshakeProtocol
  import opened HandshakeAgreement

  /** Two fresh endpoints with compatible policies that pin each other. */
  ghost predicate Compatible(p: Primitives, i: Party, r: Party, now: u64, later: u64) {
    && CanSign(p, i.identity) && CanSign(p, r.identity) && WellFormed(p, i) && WellFormed(p, r)
    && i.clientHello == r.clientHello == None && i.serverHello == r.serverHello == None
    && |i.bundle.keyId| <= 65345 && |r.bundle.keyId| <= 65281
    && Validate(p, i.bundle, r.pinned, now).Ok? && Validate(p, r.bundle, i.pinned, later).Ok?
    && Common(i.policy.capabilityBits, r.policy.capabilityBits) != 0
    && i.policy.maxPayload != 0 && r.policy.maxPayload != 0
    && SharesSecrets(p, i.ephPrivate, i.identity.x25519Private, r.ephPublic, r.bundle.x25519StaticPublic)
  }

  function OwnBundle(b: IdentityBundle): set<Signed> {
    if BundleMessage(b).Ok? then {Signed(b.ed25519Public, BundleMessage(b).value)} else {}
  }

  /** Both endpoints have signed their bundles, and nothing else happened. */
  function Start(i: Party, r: Party): World {
    World([i], [r], {i.bundle, r.bundle}, {}, {}, OwnBundle(i.bundle) + OwnBundle(r.bundle), {})
  }

  lemma StartIsInit(p: Primitives, i: Party, r: Party)
    requires WellFormed(p, i) && WellFormed(p, r)
    requires i.clientHello == r.clientHello == None && i.serverHello == r.serverHello == None
    ensures Init(p, Start(i, r))
  {
    hide BundleMessage;
    forall x | x in Start(i, r).signed
      ensures exists b | b in Start(i, r).bundles :: SignsBundle(x, b)
    {
      assert SignsBundle(x, i.bundle) || SignsBundle(x, r.bundle);
    }
  }

  /** A bundle that its key signed is no forgery. */
  lemma OwnBundleIsUnforged(p: Primitives, w: World, b: IdentityBundle)
    requires OwnBundle(b) <= w.signed
    ensures BundleUnforged(p, w, b)
  {
    hide BundleMessage;
    if BundleMessage(b).Ok? {
      assert Signed(b.ed25519Public, BundleMessage(b).value) in OwnBundle(b);
    }
  }

  /** Whatever signature verifies for the answering key on the offered message, it was made. */
  lemma AnswerIsUnforged(p: Primitives, w: World, i: Party, r: Party, f: Frame, ch: ClientHello, sh: ServerHello)
    requires WellFormed(p, r) && i.clientHello == Some(ch) && ch == HelloOf(i)
    requires sh.identityBundle == r.bundle && ServerHelloFromFrame(f) == Ok(sh)
    requires OfferMessage(p, r, ch, sh).Ok?
    requires Signed(r.identity.ed25519Public, OfferMessage(p, r, ch, sh).value) in w.signed
    requires BundleUnforged(p, w, r.bundle)
    ensures ServerHelloUnforged(p, w, i, f)
  {
    hide ServerHelloFromFrame, TranscriptHash, SignatureMessage, BundleUnforged;
  }

  lemma FinishIsUnforged(p: Primitives, w: World, i: Party, r: Party, f: Frame)
    requires WellFormed(p, i) && i.clientHello == r.clientHello == Some(HelloOf(i))
    requires i.serverHello == r.serverHello && i.serverHello.Some? && i.serverHello.value.identityBundle == r.bundle
    requires ConsentMessage(p, i).Ok?
    requires Signed(i.identity.ed25519Public, ConsentMessage(p, i).value) in w.signed
    ensures ClientFinishUnforged(p, w, r, f)
  {
    hide ClientFinishFromFrame, TranscriptHash, SignatureMessage;
  }

  /** Hello and answer, as steps of the protocol. */
  lemma HelloRun(p: Primitives, i: Party, r: Party, now: u64, later: u64) returns (ws: seq<World>, events: seq<Event>)
    requires p.SignaturesVerify() && Compatible(p, i, r, now, later)
    ensures IsRun(p, ws, events) && |ws| == |events| + 1
    ensures var w := ws[|events|];
            && |w.initiators| == |w.responders| == 1 && |w.hashed| == 1
            && SameButHellos(i, w.initiators[0]) && SameButHellos(r, w.responders[0])
            && w.initiators[0].clientHello == w.responders[0].clientHello == Some(HelloOf(i))
            && w.initiators[0].serverHello == w.responders[0].serverHello && w.initiators[0].serverHello.Some?
            && var sh := w.initiators[0].serverHello.value;
            && sh.identityBundle == r.bundle && sh.ephPublic == r.ephPublic
            && HashInput(HelloOf(i), sh).Ok? && w.hashed == {HashInput(HelloOf(i), sh).value}
  {
    hide Common, HashInput, SignatureMessage, Validate, AnswerClientHello, CheckServerHello, CanSign, WellFormed,
         ClientHelloToFrame, ServerHelloToFrame, ClientHelloFromFrame, ServerHelloFromFrame, ServerHelloUnforged,
         SharesSecrets, OfferMessage, Primitives.SignaturesVerify, AcceptedMaxPayload, BundleMessage, BundleUnforged,
         Init, OwnBundle, Acceptable;
    StartIsInit(p, i, r);
    HonestHellosSucceed(p, i, r, now, later);
    var hello := BuildClientHello(i).0.value;
    var answer := HandleClientHello(p, r, hello, now).0.value;
    var (ch, sh) := AnswerClientHello(p, r, hello, now).value;
    AnsweredClientHello(p, r, hello, now);
    var w0 := Start(i, r);
    var w1 := StepHello(w0, 0);
    var w2 := StepClientHello(p, w1, 0, hello, now);
    var i1 := w2.initiators[0];
    OwnBundleIsUnforged(p, w1, i.bundle);
    OwnBundleIsUnforged(p, w2, r.bundle);
    CheckedServerHello(p, i1, answer, later);
    assert HelloOf(i1) == HelloOf(i);
    AnswerIsUnforged(p, w2, i1, r, answer, ch, sh);
    var w3 := StepServerHello(p, w2, 0, answer, later);
    ws := [w0, w1, w2, w3];
    events := [BuildHello(0), ClientHelloArrives(0, hello, now), ServerHelloArrives(0, answer, later)];
    assert ClientHelloUnforged(p, w1, hello);
    assert forall k | 0 <= k < |events| :: Enabled(p, ws[k], events[k]) && ws[k + 1] == Step(p, ws[k], events[k]);
  }

  /** The whole run: both sides can finish, on hashes that do not collide, with honest keys and
      no forgery, so everything the agreement theorems presuppose holds at its end. */
  lemma HonestRun(p: Primitives, i: Party, r: Party, now: u64, later: u64) returns (ws: seq<World>, events: seq<Event>)
    requires p.DhCommutes() && p.SignaturesVerify() && Compatible(p, i, r, now, later)
    ensures IsRun(p, ws, events) && |ws| == |events| + 1
    ensures var w := ws[|events|];
            && |w.initiators| == |w.responders| == 1
            && var i', r' := w.initiators[0], w.responders[0];
            && CollisionFree(p, w) && Finalize(p, i').Ok? && BuildClientFinish(p, i').Ok?
            && HandleClientFinish(p, r', BuildClientFinish(p, i').value).Ok?
            && ClientFinishUnforged(p, w, r', BuildClientFinish(p, i').value)
            && Honest(w, i'.serverHello.value.identityBundle.ed25519Public)
            && Honest(w, r'.clientHello.value.identityBundle.ed25519Public)
  {
    hide IsRun, Common, HashInput, SignatureMessage, Validate, CanSign, SharesSecrets, Finalize, HandleClientFinish,
         MirroredOutputs, InitiatorInv, ResponderInv, ClientFinishUnforged, Primitives.SignaturesVerify,
         Primitives.DhCommutes, BuildClientFinish, ConsentMessage;
    ws, events := HelloRun(p, i, r, now, later);
    var w := ws[|events|];
    RunKeepsInv(p, ws, events);
    assert w in ws && Inv(p, w);
    var i', r' := w.initiators[0], w.responders[0];
    assert InitiatorInv(p, w, i') && ResponderInv(p, w, r');
    FinishBuilds(p, i');
    UnmodifiedFinish(p, w, i', r');
    var w' := StepFinish(p, w, 0);
    Consents(p, i');
    assert HelloOf(i') == HelloOf(i);
    FinishIsUnforged(p, w', i', r', BuildClientFinish(p, i').value);
    assert w'.initiators[0].identity.ed25519Public == i.bundle.ed25519Public;
    assert w'.responders[0].identity.ed25519Public == r.bundle.ed25519Public;
    ws, events := Extended(p, ws, events, BuildFinish(0));
  }

  lemma Consents(p: Primitives, i: Party)
    requires BuildClientFinish(p, i).Ok?
    ensures i.clientHello.Some? && i.serverHello.Some? && ConsentMessage(p, i).Ok?
  {
    hide TranscriptHash, SignatureMessage, ClientFinishToFrame;
  }

  lemma Extended(p: Primitives, ws: seq<World>, events: seq<Event>, ev: Event)
    returns (ws': seq<World>, events': seq<Event>)
    requires IsRun(p, ws, events) && Enabled(p, ws[|events|], ev)
    ensures IsRun(p, ws', events') && ws' == ws + [Step(p, ws[|events|], ev)] && |events'| == |events| + 1
  {
    hide Init, Enabled, Step;
    ws', events' := ws + [Step(p, ws[|events|], ev)], events + [ev];
    forall k | 0 <= k < |events'|
      ensures Enabled(p, ws'[k], events'[k]) && ws'[k + 1] == Step(p, ws'[k], events'[k])
    {
      if k < |events| {
        assert ws'[k] == ws[k] && ws'[k + 1] == ws[k + 1] && events'[k] == events[k];
      }
    }
  }
}
