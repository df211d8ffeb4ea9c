/** transport/session/session.go: the record layer of one endpoint.

    `Session` is the state as a value and the functions below are what each operation does to
    it; the class `State` holds the fields and updates them in place. Clock readings are
    explicit arguments, in nanoseconds. */
module Sessions {
  import opened Results
  import opened Bytes
  import opened Frames
  import opened ReplayWindow
  import opened HandshakeTypes
  import Cipher

  datatype ReplayMode = OrderedTcp | SlidingUdp
  datatype RekeyReason = Time | ByteCount | Manual

  const SECOND: int := 1_000_000_000
  const OUTSIDE_WINDOW := "replay rejected: sequence is outside UDP replay window"
  const DUPLICATE := "replay rejected: duplicate UDP sequence"
  /** Stands for the runtime fault of a negative bit index or shift count. */
  const PANIC := "panic: negative index or shift amount"

  datatype Session = Session(
    role: EndpointRole,
    sessionId: u64,
    txKey: Bytes32,
    rxKey: Bytes32,
    txEpoch: u32,
    rxEpoch: u32,
    txSequence: u64,
    rxSequence: u64,
    lastSeen: int,
    replayMode: ReplayMode,
    txBytesInEpoch: u64,
    txEpochStarted: int,
    rekeyMaxBytes: u64,
    rekeyMaxAge: int,
    rekeyRequired: bool,
    rekeyReason: Option<RekeyReason>,
    marks: Marks)

  function TxDirection(role: EndpointRole): u8 {
    if role == Initiator then 0x01 else 0x02
  }

  function RxDirection(role: EndpointRole): u8 {
    if role == Initiator then 0x02 else 0x01
  }

  function AtLeast(v: int, minimum: int): int {
    if v < minimum then minimum else v
  }

  function FromHandshakeOutput(o: HandshakeOutput, now: int): Session {
    Session(o.role, o.sessionId, o.txKey, o.rxKey, 0, 0, 0, 0, now, OrderedTcp, 0, now,
            AtLeast(o.maxRekeyBytes, 1), AtLeast(o.maxRekeySeconds * SECOND, SECOND),
            false, None, NO_MARKS)
  }

  /** An existing reason stays; otherwise bytes are looked at before time. */
  function RefreshRekeyTrigger(s: Session, now: int): Session {
    if s.rekeyRequired then s
    else if s.txBytesInEpoch >= s.rekeyMaxBytes then
      s.(rekeyRequired := true, rekeyReason := Some(ByteCount))
    else if now - s.txEpochStarted >= s.rekeyMaxAge then
      s.(rekeyRequired := true, rekeyReason := Some(Time))
    else s
  }

  function TxNonce(c: Cipher.Suite, s: Session): Bytes {
    Cipher.DeriveNonce(c, s.sessionId, s.txKey, TxDirection(s.role), s.txSequence)
  }

  function RxNonce(c: Cipher.Suite, s: Session, sequence: u64): Bytes {
    Cipher.DeriveNonce(c, s.sessionId, s.rxKey, RxDirection(s.role), sequence)
  }

  function EncryptFrame(c: Cipher.Suite, s: Session, f: Frame, now: int): (Result<Frame>, Session) {
    if Cipher.HasEncryptedFlag(f.flags) then (Err("frame already encrypted"), s)
    else if s.txSequence == MAX_U64 then (Err("outbound counter overflow"), s)
    else
      var aad := Cipher.BuildAAD(f, s.txEpoch, s.txSequence);
      var encrypted := Cipher.EncryptFrame(c, f, s.txKey, TxNonce(c, s), aad);
      if encrypted.Err? then (encrypted, s)
      else
        var sent := s.(txSequence := s.txSequence + 1,
                       txBytesInEpoch := (s.txBytesInEpoch + |encrypted.value.payload|) % TWO_64);
        (encrypted, RefreshRekeyTrigger(sent, now).(lastSeen := now))
  }

  /** Opening a received frame with the receiving key, for a given sequence number. */
  function OpenFrame(c: Cipher.Suite, s: Session, f: Frame, sequence: u64): Result<Frame> {
    Cipher.DecryptFrame(c, f, s.rxKey, RxNonce(c, s, sequence), Cipher.BuildAAD(f, s.rxEpoch, sequence))
  }

  function DecryptFrame(c: Cipher.Suite, s: Session, f: Frame, now: int): (Result<Frame>, Session) {
    if !Cipher.HasEncryptedFlag(f.flags) then (Err("frame is not encrypted"), s)
    else if s.replayMode != OrderedTcp then (Err("ordered decrypt requires ordered replay mode"), s)
    else if s.rxSequence == MAX_U64 then (Err("inbound counter overflow"), s)
    else
      var decrypted := OpenFrame(c, s, f, s.rxSequence);
      if decrypted.Err? then (Err("decrypt failed or replay/out-of-order record"), s)
      else (decrypted, s.(rxSequence := s.rxSequence + 1, lastSeen := now))
  }

  function DecryptFrameUdp(c: Cipher.Suite, s: Session, f: Frame, sequence: u64, now: int)
    : (Result<Frame>, Session)
  {
    if !Cipher.HasEncryptedFlag(f.flags) then (Err("frame is not encrypted"), s)
    else if s.replayMode != SlidingUdp then (Err("udp decrypt requires sliding UDP replay mode"), s)
    else if s.marks.all != {} && s.marks.highest - sequence >= TWO_63 then (Err(PANIC), s)
    else if !s.marks.Accepts(sequence) then
      (Err(if s.marks.highest - sequence >= WINDOW_SIZE then OUTSIDE_WINDOW else DUPLICATE), s)
    else
      var decrypted := OpenFrame(c, s, f, sequence);
      if decrypted.Err? then (Err("decrypt failed"), s)
      else if s.marks.all != {} && sequence - s.marks.highest >= TWO_63 then (Err(PANIC), s)
      else (decrypted, s.(marks := s.marks.Add(sequence), lastSeen := now))
  }

  function RekeyOutbound(c: Cipher.Suite, s: Session, now: int): Session {
    s.(txKey := Cipher.RekeyMaterial(c, s.txKey, s.sessionId, TxDirection(s.role)),
       txEpoch := (s.txEpoch + 1) % TWO_32,
       txSequence := 0,
       txBytesInEpoch := 0,
       txEpochStarted := now,
       rekeyRequired := false,
       rekeyReason := None)
  }

  function RekeyInbound(c: Cipher.Suite, s: Session): Session {
    s.(rxKey := Cipher.RekeyMaterial(c, s.rxKey, s.sessionId, RxDirection(s.role)),
       rxEpoch := (s.rxEpoch + 1) % TWO_32,
       rxSequence := 0,
       marks := NO_MARKS)
  }

  function SetReplayMode(s: Session, mode: ReplayMode): Session {
    s.(replayMode := mode, marks := if mode == SlidingUdp then NO_MARKS else s.marks)
  }

  function SetRekeyPolicy(s: Session, maxBytes: u64, maxAge: int): Session {
    s.(rekeyMaxBytes := AtLeast(maxBytes, 1), rekeyMaxAge := AtLeast(maxAge, SECOND))
  }

  function MarkRekeyManual(s: Session): Session {
    s.(rekeyRequired := true, rekeyReason := Some(Manual))
  }

  /** The direction byte that is hashed, told by a hash that shows its input from there on: one
      from initiator to responder and two back, for whichever side computes it. */
  lemma DirectionsShow(c: Cipher.Suite, s: Session, q: u64)
    ensures var shown := c.(sha256 := Cipher.Showing(31));
            && TxNonce(shown, s)[0] == (if s.role == Initiator then 1 else 2)
            && RxNonce(shown, s, q)[0] == (if s.role == Initiator then 2 else 1)
    ensures var shown := c.(sha256 := Cipher.Showing(24));
            && RekeyOutbound(shown, s, 0).txKey[0] == (if s.role == Initiator then 1 else 2)
            && RekeyInbound(shown, s).rxKey[0] == (if s.role == Initiator then 2 else 1)
  {
    hide U64, Cipher.DeriveNonce, Cipher.RekeyMaterial, Cipher.Showing;
    var tx, rx := TxDirection(s.role), RxDirection(s.role);
    var nonce := Cipher.DeriveNonce(c.(sha256 := Cipher.Showing(31)), s.sessionId, s.rxKey, rx, q);
    Cipher.HashedBytes(c, s.sessionId, s.txKey, tx, s.txSequence, 31);
    Cipher.HashedBytes(c, s.sessionId, s.rxKey, rx, q, 31);
    Cipher.HashedBytes(c, s.sessionId, s.txKey, tx, 0, 24);
    Cipher.HashedBytes(c, s.sessionId, s.rxKey, rx, 0, 24);
    assert nonce[0] == nonce[..4][0];
  }

  /** A rejected record changes nothing, in either mode. */
  lemma RejectedRecordChangesNothing(c: Cipher.Suite, s: Session, f: Frame, sequence: u64, now: int)
    ensures DecryptFrame(c, s, f, now).0.Err? ==> DecryptFrame(c, s, f, now).1 == s
    ensures DecryptFrameUdp(c, s, f, sequence, now).0.Err? ==> DecryptFrameUdp(c, s, f, sequence, now).1 == s
  {}

  /** The fault of the window at one input: 2^63 was accepted and a frame claims number 0. */
  lemma WindowFaults(c: Cipher.Suite, s: Session, f: Frame, now: int)
    requires s.replayMode == SlidingUdp && s.marks == NO_MARKS.Add(TWO_63)
    requires Cipher.HasEncryptedFlag(f.flags)
    ensures DecryptFrameUdp(c, s, f, 0, now) == (Err(PANIC), s)
  {
    assert TWO_63 in s.marks.all;
  }

  class State {
    var role: EndpointRole
    var sessionId: u64
    var txKey: Bytes32
    var rxKey: Bytes32
    var txEpoch: u32
    var rxEpoch: u32
    var txSequence: u64
    var rxSequence: u64
    var lastSeen: int
    var replayMode: ReplayMode
    var txBytesInEpoch: u64
    var txEpochStarted: int
    var rekeyMaxBytes: u64
    var rekeyMaxAge: int
    var rekeyRequired: bool
    var rekeyReason: Option<RekeyReason>
    var udpReplayWindow: UdpReplayWindow

    ghost function Footprint(): set<object>
      reads this, udpReplayWindow
    {
      {this, udpReplayWindow, udpReplayWindow.bits}
    }

    ghost predicate Valid()
      reads this, udpReplayWindow, udpReplayWindow.bits
    {
      udpReplayWindow.Valid()
    }

    ghost function View(): Session
      reads this, udpReplayWindow
    {
      Session(role, sessionId, txKey, rxKey, txEpoch, rxEpoch, txSequence, rxSequence, lastSeen,
              replayMode, txBytesInEpoch, txEpochStarted, rekeyMaxBytes, rekeyMaxAge,
              rekeyRequired, rekeyReason, udpReplayWindow.marks)
    }

    constructor (o: HandshakeOutput, now: int)
      ensures Valid() && fresh(Footprint())
      ensures View() == FromHandshakeOutput(o, now)
    {
      role, sessionId, txKey, rxKey := o.role, o.sessionId, o.txKey, o.rxKey;
      txEpoch, rxEpoch, txSequence, rxSequence := 0, 0, 0, 0;
      lastSeen := now;
      replayMode := OrderedTcp;
      txBytesInEpoch, txEpochStarted := 0, now;
      rekeyMaxBytes := AtLeast(o.maxRekeyBytes, 1);
      rekeyMaxAge := AtLeast(o.maxRekeySeconds * SECOND, SECOND);
      rekeyRequired, rekeyReason := false, None;
      udpReplayWindow := new UdpReplayWindow();
    }

    method Touch(now: int)
      requires Valid()
      modifies this`lastSeen
      ensures Valid() && View() == old(View()).(lastSeen := now)
    {
      lastSeen := now;
    }

    method SetReplayModeTo(mode: ReplayMode)
      requires Valid()
      modifies this
      ensures Valid() && fresh(Footprint() - old(Footprint()))
      ensures View() == SetReplayMode(old(View()), mode)
    {
      replayMode := mode;
      if mode == SlidingUdp {
        udpReplayWindow := new UdpReplayWindow();
      }
    }

    method SetRekeyLimits(maxBytes: u64, maxAge: int)
      requires Valid()
      modifies this
      ensures Valid() && Footprint() == old(Footprint())
      ensures View() == SetRekeyPolicy(old(View()), maxBytes, maxAge)
    {
      rekeyMaxBytes := AtLeast(maxBytes, 1);
      rekeyMaxAge := AtLeast(maxAge, SECOND);
    }

    method MarkManual()
      requires Valid()
      modifies this
      ensures Valid() && Footprint() == old(Footprint())
      ensures View() == MarkRekeyManual(old(View()))
    {
      rekeyRequired := true;
      rekeyReason := Some(Manual);
    }

    method Encrypt(c: Cipher.Suite, f: Frame, now: int) returns (r: Result<Frame>)
      requires Valid()
      modifies this
      ensures Valid() && udpReplayWindow == old(udpReplayWindow)
      ensures (r, View()) == EncryptFrame(c, old(View()), f, now)
    {
      if Cipher.HasEncryptedFlag(f.flags) {
        return Err("frame already encrypted");
      }
      if txSequence == MAX_U64 {
        return Err("outbound counter overflow");
      }
      var nonce := Cipher.FillNonce(c, sessionId, txKey, TxDirection(role), txSequence);
      var aad := Cipher.FillAAD(f, txEpoch, txSequence);
      var encrypted := Cipher.EncryptFrame(c, f, txKey, nonce, aad);
      if encrypted.Err? {
        return encrypted;
      }
      txSequence := txSequence + 1;
      txBytesInEpoch := (txBytesInEpoch + |encrypted.value.payload|) % TWO_64;
      Refresh(now);
      Touch(now);
      r := encrypted;
    }

    method Decrypt(c: Cipher.Suite, f: Frame, now: int) returns (r: Result<Frame>)
      requires Valid()
      modifies this
      ensures Valid() && udpReplayWindow == old(udpReplayWindow)
      ensures (r, View()) == DecryptFrame(c, old(View()), f, now)
    {
      if !Cipher.HasEncryptedFlag(f.flags) {
        return Err("frame is not encrypted");
      }
      if replayMode != OrderedTcp {
        return Err("ordered decrypt requires ordered replay mode");
      }
      if rxSequence == MAX_U64 {
        return Err("inbound counter overflow");
      }
      var nonce := Cipher.FillNonce(c, sessionId, rxKey, RxDirection(role), rxSequence);
      var aad := Cipher.FillAAD(f, rxEpoch, rxSequence);
      var decrypted := Cipher.DecryptFrame(c, f, rxKey, nonce, aad);
      if decrypted.Err? {
        return Err("decrypt failed or replay/out-of-order record");
      }
      rxSequence := rxSequence + 1;
      Touch(now);
      r := decrypted;
    }

    method DecryptUdp(c: Cipher.Suite, f: Frame, sequence: u64, now: int) returns (r: Result<Frame>)
      requires Valid()
      modifies Footprint()
      ensures Valid() && fresh(Footprint() - old(Footprint()))
      ensures (r, View()) == DecryptFrameUdp(c, old(View()), f, sequence, now)
    {
      if !Cipher.HasEncryptedFlag(f.flags) {
        return Err("frame is not encrypted");
      }
      if replayMode != SlidingUdp {
        return Err("udp decrypt requires sliding UDP replay mode");
      }
      var verdict := udpReplayWindow.ValidateCandidate(sequence);
      if verdict == Panic {
        return Err(PANIC);
      }
      if verdict == OutsideWindow {
        return Err(OUTSIDE_WINDOW);
      }
      if verdict == Duplicate {
        return Err(DUPLICATE);
      }
      var nonce := Cipher.FillNonce(c, sessionId, rxKey, RxDirection(role), sequence);
      var aad := Cipher.FillAAD(f, rxEpoch, sequence);
      var decrypted := Cipher.DecryptFrame(c, f, rxKey, nonce, aad);
      if decrypted.Err? {
        return Err("decrypt failed");
      }
      var panicked := udpReplayWindow.MarkSeen(sequence);
      if panicked {
        return Err(PANIC);
      }
      Touch(now);
      r := decrypted;
    }

    method Rekey(c: Cipher.Suite, now: int)
      requires Valid()
      modifies this
      ensures Valid() && udpReplayWindow == old(udpReplayWindow)
      ensures View() == RekeyOutbound(c, old(View()), now)
    {
      txKey := Cipher.RekeyMaterial(c, txKey, sessionId, TxDirection(role));
      txEpoch := (txEpoch + 1) % TWO_32;
      txSequence := 0;
      txBytesInEpoch := 0;
      txEpochStarted := now;
      rekeyRequired := false;
      rekeyReason := None;
    }

    method RekeyPeer(c: Cipher.Suite)
      requires Valid()
      modifies this
      ensures Valid() && fresh(Footprint() - old(Footprint()))
      ensures View() == RekeyInbound(c, old(View()))
    {
      rxKey := Cipher.RekeyMaterial(c, rxKey, sessionId, RxDirection(role));
      rxEpoch := (rxEpoch + 1) % TWO_32;
      rxSequence := 0;
      udpReplayWindow := new UdpReplayWindow();
    }

    method Refresh(now: int)
      requires Valid()
      modifies this`rekeyRequired, this`rekeyReason
      ensures Valid() && View() == RefreshRekeyTrigger(old(View()), now)
    {
      if rekeyRequired {
        return;
      }
      if txBytesInEpoch >= rekeyMaxBytes {
        rekeyRequired := true;
        rekeyReason := Some(ByteCount);
        return;
      }
      if now - txEpochStarted >= rekeyMaxAge {
        rekeyRequired := true;
        rekeyReason := Some(Time);
      }
    }
  }
}
