/** When a rekey is asked for and when a session was last active, told from the actions of a run
    alone. Nothing is assumed of keys, of the cipher or of what arrives. */
module RecordTriggers {
  import opened Results
  import opened Bytes
  import opened Frames
  import opened HandshakeTypes
  import opened Sessions
  import opened RecordProtocol
  import opened RecordInvariant
  import Cipher

  /** The last outbound rekey of `role`, or the start. */
  function EpochStart(start: int, actions: seq<Action>, role: EndpointRole): int {
    if actions == [] then start else
    var a := actions[|actions| - 1];
    if a.role == role && a.event.RekeyOut? then a.event.now else EpochStart(start, actions[..|actions| - 1], role)
  }

  /** The byte limit last set, at least one byte. */
  function MaxBytes(initial: u64, actions: seq<Action>, role: EndpointRole): u64 {
    if actions == [] then initial else
    var a := actions[|actions| - 1];
    if a.role == role && a.event.SetPolicy? then (if a.event.maxBytes == 0 then 1 else a.event.maxBytes)
    else MaxBytes(initial, actions[..|actions| - 1], role)
  }

  /** The age limit last set, at least one second, in nanoseconds. */
  function MaxAge(initial: int, actions: seq<Action>, role: EndpointRole): int {
    if actions == [] then initial else
    var a := actions[|actions| - 1];
    if a.role == role && a.event.SetPolicy? then
      (if a.event.maxAge < 1_000_000_000 then 1_000_000_000 else a.event.maxAge)
    else MaxAge(initial, actions[..|actions| - 1], role)
  }

  lemma StepInForce(c: Cipher.Suite, e: End, ev: Event)
    requires e.Started()
    ensures var s, s' := e.session, StepEnd(c, e, ev).session;
            && s'.txEpochStarted == (if ev.RekeyOut? then ev.now else s.txEpochStarted)
            && s'.rekeyMaxBytes == (if !ev.SetPolicy? then s.rekeyMaxBytes
                                    else if ev.maxBytes == 0 then 1 else ev.maxBytes)
            && s'.rekeyMaxAge == (if !ev.SetPolicy? then s.rekeyMaxAge
                                  else if ev.maxAge < 1_000_000_000 then 1_000_000_000 else ev.maxAge)
  {
    hide DecryptFrame, DecryptFrameUdp;
    match ev
    case Deliver(f, now) => OrderedOutcome(c, e.session, f, now);
    case DeliverUdp(f, q, now) => UdpOutcome(c, e.session, f, q, now);
    case _ =>
  }

  /** The start of the epoch and the limits in force are those the actions say. */
  lemma {:induction false} InForce(g: Config, ws: seq<World>, actions: seq<Action>, n: nat, role: EndpointRole)
    requires IsOpenRun(g, ws, actions) && n < |ws|
    ensures var s0, s := ws[0].At(role).session, ws[n].At(role).session;
            && s.txEpochStarted == EpochStart(s0.txEpochStarted, actions[..n], role)
            && s.rekeyMaxBytes == MaxBytes(s0.rekeyMaxBytes, actions[..n], role)
            && s.rekeyMaxAge == MaxAge(s0.rekeyMaxAge, actions[..n], role)
  {
    hide Init, StepEnd;
    if n > 0 {
      InForce(g, ws, actions, n - 1, role);
      var a := actions[n - 1];
      assert actions[..n][..n - 1] == actions[..n - 1];
      assert Steps(g, ws[n - 1], a, ws[n]);
      if a.role == role {
        StepInForce(g.suite, ws[n - 1].At(role), a.event);
      } else {
        assert role == a.role.Peer();
      }
    }
  }

  /** What an action does to the trigger, given what is in force. */
  lemma StepTrigger(c: Cipher.Suite, e: End, ev: Event)
    requires e.Started() && (e.session.rekeyRequired <==> e.session.rekeyReason.Some?)
    ensures var e' := StepEnd(c, e, ev);
            var s, s' := e.session, e'.session;
            match ev
            case Encrypt(_, now) =>
              if e'.outbound == e.outbound then
                s'.rekeyRequired == s.rekeyRequired && s'.rekeyReason == s.rekeyReason
              else
                var full, aged := s'.txBytesInEpoch >= s.rekeyMaxBytes, now - s.txEpochStarted >= s.rekeyMaxAge;
                && (s'.rekeyRequired <==> s.rekeyRequired || full || aged)
                && s'.rekeyReason == if s.rekeyRequired then s.rekeyReason
                                     else if full then Some(ByteCount) else if aged then Some(Time) else None
            case RekeyOut(_) => !s'.rekeyRequired && s'.rekeyReason == None
            case MarkManual => s'.rekeyRequired && s'.rekeyReason == Some(Manual)
            case _ => s'.rekeyRequired == s.rekeyRequired && s'.rekeyReason == s.rekeyReason
  {
    hide DecryptFrame, DecryptFrameUdp;
    match ev
    case Encrypt(f, now) =>
      var r := EncryptFrame(c, e.session, f, now).0;
      if r.Ok? {
        assert Last(StepEnd(c, e, ev).outbound) == Last(e.outbound) + [Sealed(f, r.value)];
      }
    case Deliver(f, now) => OrderedOutcome(c, e.session, f, now);
    case DeliverUdp(f, q, now) => UdpOutcome(c, e.session, f, q, now);
    case _ =>
  }

  /** The rekey trigger, exactly: after a sealed frame a rekey is required if and only if it was
      before, or the ciphertexts since the last outbound rekey reach the byte limit in force, or
      the time since then reaches the age in force; a new reason is the byte count if that was
      reached and time otherwise; a manual mark is the only source of the manual reason; and
      besides, only an outbound rekey changes anything. */
  lemma TriggersExactly(g: Config, ws: seq<World>, actions: seq<Action>, i: nat)
    requires IsOpenRun(g, ws, actions) && i < |actions|
    ensures var role, before := actions[i].role, actions[..i];
            var e, e', s0 := ws[i].At(role), ws[i + 1].At(role), ws[0].At(role).session;
            && e.Started() && e'.Started()
            && var s, s' := e.session, e'.session;
            match actions[i].event
            case Encrypt(_, now) =>
              if e'.outbound == e.outbound then
                s'.rekeyRequired == s.rekeyRequired && s'.rekeyReason == s.rekeyReason
              else
                var full := CiphertextBytes(Last(e'.outbound)) % TWO_64 >= MaxBytes(s0.rekeyMaxBytes, before, role);
                var aged := now - EpochStart(s0.txEpochStarted, before, role) >= MaxAge(s0.rekeyMaxAge, before, role);
                && (s'.rekeyRequired <==> s.rekeyRequired || full || aged)
                && s'.rekeyReason == if s.rekeyRequired then s.rekeyReason
                                     else if full then Some(ByteCount) else if aged then Some(Time) else None
            case RekeyOut(_) => !s'.rekeyRequired && s'.rekeyReason == None
            case MarkManual => s'.rekeyRequired && s'.rekeyReason == Some(Manual)
            case _ => s'.rekeyRequired == s.rekeyRequired && s'.rekeyReason == s.rekeyReason
  {
    hide Init, SealedRight, StepEnd, Config.Chain;
    OpenRunKeepsOut(g, ws, actions);
    var role := actions[i].role;
    assert Steps(g, ws[i], actions[i], ws[i + 1]);
    assert OutInv(g, role, ws[i].At(role)) && OutInv(g, role, ws[i + 1].At(role));
    InForce(g, ws, actions, i, role);
    StepTrigger(g.suite, ws[i].At(role), actions[i].event);
  }

  /** A session as the handshake leaves it: the limits agreed on, at least one byte and one
      second, and both clocks at the start. */
  lemma LimitsAgreed(o: HandshakeOutput, now: int)
    ensures var s := FromHandshakeOutput(o, now);
            && s.rekeyMaxBytes == (if o.maxRekeyBytes == 0 then 1 else o.maxRekeyBytes)
            && s.rekeyMaxAge == (if o.maxRekeySeconds == 0 then 1 else o.maxRekeySeconds) * 1_000_000_000
            && s.txEpochStarted == s.lastSeen == now && !s.rekeyRequired
  {}

  // ---- Activity ----

  /** The time of the last frame that `role` sealed or accepted in the first `n` steps, or the
      start. */
  function LastActivity(ws: seq<World>, actions: seq<Action>, role: EndpointRole, n: nat): int
    requires n <= |actions| < |ws|
  {
    if n == 0 then ws[0].At(role).session.lastSeen else
    var before := LastActivity(ws, actions, role, n - 1);
    if actions[n - 1].role != role then before
    else ActiveAt(ws[n - 1].At(role), ws[n].At(role), actions[n - 1].event, before)
  }

  /** The event's time if it sealed or accepted a frame. */
  function ActiveAt(e: End, e': End, ev: Event, before: int): int {
    match ev
    case Encrypt(_, now) => if e'.outbound != e.outbound then now else before
    case Deliver(_, now) => if e'.inbound != e.inbound then now else before
    case DeliverUdp(_, _, now) => if e'.inbound != e.inbound then now else before
    case _ => before
  }

  lemma EncryptActivity(c: Cipher.Suite, e: End, f: Frame, now: int)
    requires e.Started()
    ensures var e' := StepEnd(c, e, Encrypt(f, now));
            e'.session.lastSeen == ActiveAt(e, e', Encrypt(f, now), e.session.lastSeen)
  {
    hide DecryptFrame, DecryptFrameUdp;
    var r := EncryptFrame(c, e.session, f, now).0;
    if r.Ok? {
      assert Last(StepEnd(c, e, Encrypt(f, now)).outbound) == Last(e.outbound) + [Sealed(f, r.value)];
    }
  }

  lemma DeliverActivity(c: Cipher.Suite, e: End, f: Frame, now: int)
    requires e.Started()
    ensures var e' := StepEnd(c, e, Deliver(f, now));
            e'.session.lastSeen == ActiveAt(e, e', Deliver(f, now), e.session.lastSeen)
  {
    hide EncryptFrame, DecryptFrameUdp, OpenFrame, Accept;
    var (r, s) := DecryptFrame(c, e.session, f, now);
    if r.Ok? {
      AcceptAdds(e, s, Delivery(e.session.rxSequence, r.value));
    }
  }

  lemma DeliverUdpActivity(c: Cipher.Suite, e: End, f: Frame, q: u64, now: int)
    requires e.Started()
    ensures var e' := StepEnd(c, e, DeliverUdp(f, q, now));
            e'.session.lastSeen == ActiveAt(e, e', DeliverUdp(f, q, now), e.session.lastSeen)
  {
    hide EncryptFrame, DecryptFrame, OpenFrame, Accept;
    var (r, s) := DecryptFrameUdp(c, e.session, f, q, now);
    if r.Ok? {
      AcceptAdds(e, s, Delivery(q, r.value));
    }
  }

  lemma StepActivity(c: Cipher.Suite, e: End, ev: Event)
    requires e.Started()
    ensures var e' := StepEnd(c, e, ev);
            e'.session.lastSeen == ActiveAt(e, e', ev, e.session.lastSeen)
  {
    hide EncryptFrame, DecryptFrame, DecryptFrameUdp;
    match ev
    case Encrypt(f, now) => EncryptActivity(c, e, f, now);
    case Deliver(f, now) => DeliverActivity(c, e, f, now);
    case DeliverUdp(f, q, now) => DeliverUdpActivity(c, e, f, q, now);
    case _ =>
  }

  lemma AcceptAdds(e: End, s: Session, d: Delivery)
    requires e.Started()
    ensures Accept(e, s, d).inbound != e.inbound && Accept(e, s, d).session == s
  {
    assert |Accept(e, s, d).Current().got| == |e.Current().got| + 1;
  }

  /** The time a session was last seen is that of its last sealed or accepted frame; what is
      refused does not count. */
  lemma {:induction false} LastSeenIsLastActivity(g: Config, ws: seq<World>, actions: seq<Action>,
                                                  role: EndpointRole, n: nat)
    requires IsOpenRun(g, ws, actions) && n <= |actions|
    ensures ws[n].At(role).session.lastSeen == LastActivity(ws, actions, role, n)
  {
    hide Init, StepEnd, ActiveAt;
    if n > 0 {
      var a := actions[n - 1];
      LastSeenIsLastActivity(g, ws, actions, role, n - 1);
      assert Steps(g, ws[n - 1], a, ws[n]);
      if a.role == role {
        StepActivity(g.suite, ws[n - 1].At(role), a.event);
      } else {
        assert role == a.role.Peer();
      }
    }
  }
}
