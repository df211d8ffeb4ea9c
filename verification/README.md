# Shadowlark transport, modelled and proved

Shadowlark is a secure transport: a signed three-message handshake, a record layer with keys
per direction, rekeying and replay protection, a framing layer on byte streams, and application
messages. This project models it from the codecs up to the whole stack.

- `Bytes`, `Codec`, `Frames`: big-endian numbers, the writer and the position-advancing reader,
  and the frame. `Take...` functions are what the reader's methods are proved against.
- `Words`, `ReplayWindow`: 64-bit words with Go's shifts, and the 1024-bit sliding window as the
  in-place bitmap it is, proved against the set of all numbers ever marked.
- `Cipher`, `Sessions`: nonces, associated data, rekeying; the session both as a value with
  functions and as a class whose methods are proved equal to those functions.
- `RecordProtocol`, `RecordInvariant`, `RecordGuarantees`: two sessions in both directions and a
  network that drops, duplicates, reorders and invents frames; the invariant of every step; the
  guarantees over every run. `RecordModes`: exactly when setting the replay mode in the middle of
  an epoch undoes at-most-once delivery. `RecordTriggers`: when a rekey is asked for and when a
  session was last active, told from the actions of a run alone.
- `Streams`, `Clients`: frames on a byte stream, encrypted sending and reading with heartbeats
  mixed in, and the client's handshake over the stream.
- `HandshakeTypes`, `HandshakeMessages`, `HandshakeCodecs`, `Handshakes`: the handshake messages,
  their codecs, the transcript, and the two endpoints as values and as classes.
- `HandshakeProtocol`, `HandshakeAgreement`: any number of endpoints on a hostile network, the
  invariant, agreement, authentic identities, and outputs that mirror each other. `HandshakeRuns`
  builds an honest run, so what agreement presupposes can come about. `HandshakeKeys`: what the
  derived keys and the session id depend on.
- `StreamAuthenticity`: the same reader on a stream that the network tampers with. `Duplex`: both
  directions at once, each side sending and reading on one session in any order.
- `EndToEnd`: handshake, record layer and streams stacked.
- `AppMessages`, `Slices`, `Inboxes`, `Subscribers`: application messages, the inbox with its
  removal by channel and the subscriber lists, both on array-backed slices, and sequence
  allocation. `AppDelivery`: messages built, sent, read, parsed and queued.
- `Assumptions`: small stand-ins that meet what is assumed of the cryptography as functions. What
  is assumed of the network, that it forges nothing, is met by the runs of
  `HandshakeRuns.HonestRun` and `RecordModes.HonestExchange`, by every undisturbed stream
  (`StreamAuthenticity.UndisturbedIsUnforged`) and, with the stand-in cipher, by every stream of
  the sender's frames in any order (`Assumptions.RearrangedWireIsUnforged`).

The cryptography is a datatype of functions with stated assumptions. Sealing and opening are
inverse to each other and add 16 bytes (section 2.8 of RFC 8439); what the network presents opens
only if it was sealed; keys do not repeat on the two rekey chains up to a horizon that is a
parameter; Diffie-Hellman commutes and may fail (section 6.1 of RFC 7748); a signature of an
honest key that verifies, on a bundle, a hello or a finish, was made by that key (section 5.1 of
RFC 8032); the transcripts of hellos that honest endpoints accept, answer or sign in a run do not
collide.

Four facts about the code that the proofs bring out:

- Delivery over `SendEncrypted` and `ReadEncrypted` fails for two kinds of frame that are accepted
  and sent. One has the heartbeat's message type, which the reader skips; the other has a payload
  of 2^32 - 16 bytes or more, whose ciphertext length is cut in the header. Delivery is exact if
  and only if no frame sent is of either kind (`Streams.DeliversExactlyWhen`; one frame of each
  kind is shown lost by `Streams.HeartbeatTypedFrameIsLost` and `Streams.LongFrameIsLost`).
- The client finish and the heartbeat share the message type value 3: a reader with a session
  skips a finish that arrives late, and a client that waits for the answer to its hello gives up
  on a heartbeat (`Clients.FinishReadsAsHeartbeat`).
- The window converts a distance to a signed integer, so a distance of 2^63 or more faults. It is
  exactly then that `ReplayWindow.UdpReplayWindow.ValidateCandidate` and `MarkSeen` panic; 0
  against 2^63 is such a case, both ways (`ReplayWindow.FaultsAtGap`, `Sessions.WindowFaults`).
  With at most 2^63 records sealed in an epoch it cannot happen (`RecordGuarantees.UdpNeverPanics`).

- Setting the replay mode in the middle of an epoch can let a record be accepted again. UDP mode
  does so as soon as anything was accepted in the epoch, since the window is emptied; ordered mode
  does so exactly when an accepted number has reached the ordered counter, which stays where it
  was (`RecordModes.ModeChangeRepeatsExactly`; `RecordModes.AcceptedTwice` shows one record
  accepted twice). Within each stretch between two settings, delivery stays genuine and at most
  once, and what is accepted in ordered mode stays a prefix through all of them.

## Model

| member | source | states |
|---|---|---|
| EndToEnd.AuthenticatedStack | transport/handshake/handshake.go:1003-1067 | after a handshake over an arbitrary network, a responder that accepts a finish from an honest pinned key shares a session with an initiator that signed it, and that one session has everything `EndToEnd.MirroredSecures` states |
| EndToEnd.FullStack | transport/tcp/client.go:312-346 | after any run of the handshake in which two endpoints finish on matching hellos, their session has everything `EndToEnd.MirroredSecures` states |
| EndToEnd.MirroredSecures | transport/session/session.go:141-159 | sessions from mirrored outputs: however both sides send, write heartbeats and read on their sessions, each reads what the other sent; one direction alone is read exactly as sent if and only if no frame sent has the heartbeat's type or an overflowing ciphertext length; any stream without forgery is read as a prefix of what was sent; every run of the record protocol delivers ordered records as prefixes, accepts nothing twice between two settings of the mode and uses no key and nonce twice |
| EndToEnd.StreamHandshake | transport/tcp/client.go:111-156 | on undisturbed streams the client takes exactly the answer, its two frames read back from what it wrote, and both sides complete or neither does, with mirrored outputs; completion fails only on a low order point |
| EndToEnd.SessionsStartMirrored | transport/session/session.go:141-159 | mirrored handshake outputs, taken up at any two times, give sessions that form an initial state of the record protocol and mirror each other in both directions |
| RecordGuarantees.OrderedPrefix | transport/session/session.go:220-241 | in every run, what was accepted in ordered mode in an epoch, before and after any time in UDP mode, is a prefix of what the peer sealed in that epoch: nothing duplicated, reordered or stale |
| RecordGuarantees.AtMostOnce | transport/session/session.go:243-264 | in every run, however often the mode is set, each accepted frame is the one sealed under its number in that epoch, and no number is accepted twice between two settings of the mode |
| RecordGuarantees.RunsAreProtected | transport/session/session.go:198-281 | prefix delivery, at-most-once delivery and nonce uniqueness together, for both endpoints and all epochs of every state of every run |
| RecordGuarantees.UdpAcceptsExactly | transport/session/session.go:243-264 | in every run, without any bound, the outcome for a genuine record in all cases: fault when an accepted number is 2^63 or more above, outside the window when one is 1024 or more above, duplicate when its number was accepted, fault when all are 2^63 or more below, and otherwise the frame that was sealed |
| RecordGuarantees.UdpNeverPanics | transport/session/session.go:37-75 | in every run, with at most 2^63 records sealed in the epoch, no unforged frame and no claimed number makes the window fault |
| RecordGuarantees.NextInOrderIsAccepted | transport/session/session.go:220-241 | in every run, in ordered mode the record that follows what was accepted in ordered mode always opens to what was sealed |
| RecordGuarantees.NoncesAreUnique | transport/session/session.go:198-218 | in every run, with forged frames and mode changes allowed, no two sealed frames of either endpoint in any epoch up to the horizon share key and nonce, numbers stay below 2^64-1, and the wire frame is the one that key and nonce give; only distinct keys are assumed |
| RecordGuarantees.RekeyTrigger | transport/session/session.go:192-302 | in every run, with nothing assumed of keys, cipher or network: a reason exists exactly while a rekey is required; the byte count is the sum of ciphertext lengths since the last outbound rekey (below 2^64); reaching the limit in an encryption requires a rekey; only an outbound rekey clears it |
| RecordTriggers.TriggersExactly | transport/session/session.go:192-302 | in every run, from its actions: after a sealed frame a rekey is required if and only if it was before, or the ciphertexts since the last outbound rekey reach the byte limit last set, or the time since then reaches the age last set; a new reason is bytes before time; the manual reason comes only from the manual mark; besides, only an outbound rekey changes anything |
| RecordTriggers.LimitsAgreed | transport/session/session.go:141-159 | a new session has the limits agreed on, at least one byte and one second, and both clocks at its start |
| RecordTriggers.LastSeenIsLastActivity | transport/session/session.go:161-163 | in every run, the time a session was last seen is that of its last sealed or accepted frame |
| RecordModes.ModeChangeRepeatsExactly | transport/session/session.go:169-174 | in every run, after setting a mode some continuation accepts again a number accepted in the epoch if and only if something was accepted and the mode is UDP, or an accepted number has reached the ordered counter |
| RecordModes.FirstModeChange | transport/session/session.go:169-174 | the first mode setting of an epoch in which something was accepted keeps at-most-once delivery exactly when it sets ordered mode where it already was |
| RecordModes.UdpAcceptsAgain | transport/session/session.go:169-174 | once UDP mode is set, every record accepted in the epoch before, in either mode, is accepted again |
| RecordModes.AcceptedTwice | transport/session/session.go:169-174 | one frame sealed and delivered, UDP mode set, and the same frame can be delivered again |
| RecordModes.HonestExchange | transport/session/session.go:198-241 | from any initial state, sealing a frame and delivering it is a run without forgery, and exactly that frame arrives |
| RecordInvariant.OpenRunKeepsOut | transport/session/session.go:198-274 | whatever arrives and however often keys are changed, the sending sides keep their invariant |
| RecordInvariant.RunKeepsInv | transport/session/session.go:198-281 | every state of every run satisfies the invariant: equal epoch counts give equal keys, epoch numbers and directions, counters are lengths of histories, accepted records are genuine |
| RecordInvariant.StepKeepsInv | transport/session/session.go:198-302 | each operation of either endpoint, and each delivery of an unforged frame, keeps the invariant of both directions |
| RecordInvariant.OpensOnlyGenuine | crypto/cipher.go:84-102 | whatever unforged frame opens for a receiver is the very wire frame its peer sealed in the same epoch under the same number |
| RecordInvariant.SealedByPeer | crypto/cipher.go:25-65 | the key and nonce a receiver uses were used only by the peer, in the same epoch, under the same number |
| RecordInvariant.GenuineOpens | transport/session/session.go:220-264 | every record sealed in the receiver's epoch opens under its own number to what was sealed |
| Sessions.RejectedRecordChangesNothing | transport/session/session.go:220-264 | a rejected record, in either mode, leaves the whole session unchanged |
| Sessions.WindowFaults | transport/session/session.go:243-252 | after 2^63 was accepted, an encrypted frame that claims number 0 makes UDP decryption fault, leaving the session as it was |
| Sessions.State.constructor | transport/session/session.go:141-159 | the in-place session starts as the output of the handshake says |
| Sessions.State.Encrypt | transport/session/session.go:198-218 | result and new state are those of the value-level encryption: refused frames change nothing, a sealed one advances counter, bytes, trigger and time |
| Sessions.State.Decrypt | transport/session/session.go:220-241 | result and new state are those of the value-level ordered decryption |
| Sessions.State.DecryptUdp | transport/session/session.go:243-264 | result and new state are those of the value-level UDP decryption, whose window is the set of marked numbers |
| Sessions.State.Rekey | transport/session/session.go:266-274 | the outbound direction moves one step on its key chain, epoch modulo 2^32, counters and trigger cleared, inbound untouched |
| Sessions.State.RekeyPeer | transport/session/session.go:276-281 | the inbound direction moves one step on its key chain with a fresh window, outbound untouched |
| Sessions.State.Refresh | transport/session/session.go:287-302 | an existing reason stays; otherwise bytes are looked at before age |
| Sessions.State.SetReplayModeTo | transport/session/session.go:169-174 | the mode is set, and the window is emptied only for UDP |
| Sessions.State.SetRekeyLimits | transport/session/session.go:176-179 | limits are raised to one byte and one second |
| Sessions.State.MarkManual | transport/session/session.go:192-196 | a manual reason replaces any other |
| Sessions.State.Touch | transport/session/session.go:161-163 | only the time last seen changes |
| ReplayWindow.AcceptsAfterRun | transport/session/session.go:37-75 | after any run of marked numbers the reference accepts a number exactly when it is newer than all of them, or unmarked and less than 1024 behind the largest |
| ReplayWindow.UdpReplayWindow.ValidateCandidate | transport/session/session.go:37-52 | the bitmap accepts exactly what the reference accepts, faults exactly at distances of 2^63 and more, and names the right reason for refusing |
| ReplayWindow.UdpReplayWindow.MarkSeen | transport/session/session.go:54-75 | the bitmap keeps showing, for each of the last 1024 numbers, whether it was ever marked; faults exactly at gaps of 2^63 and more, then changing nothing |
| ReplayWindow.FaultsAtGap | transport/session/session.go:44-48 | a window that has seen 2^63 faults on checking 0, and one that has seen 0 faults on marking 2^63 |
| ReplayWindow.UdpReplayWindow.ShiftWindow | transport/session/session.go:95-119 | for every shift of zero or more, bit d of the new bitmap is bit d - shift of the old one and all others are clear; a negative shift faults |
| ReplayWindow.UdpReplayWindow.Clear | transport/session/session.go:77-81 | every bit is clear afterwards |
| ReplayWindow.UdpReplayWindow.Contains | transport/session/session.go:83-87 | word and mask test exactly the asked bit |
| ReplayWindow.UdpReplayWindow.Set | transport/session/session.go:89-93 | word and mask set exactly the asked bit |
| ReplayWindow.UdpReplayWindow.constructor | transport/session/session.go:31-35 | a fresh window has seen nothing |
| ReplayWindow.ShiftsWord | transport/session/session.go:107-117 | the shift with carry of one destination word brings into each of its bits the bit that lies `shift` places lower in the whole bitmap |
| ReplayWindow.ShowsNewer | transport/session/session.go:63-69 | shifting by the gap to a newer number and setting bit 0 keeps the bitmap right |
| ReplayWindow.ShowsOlder | transport/session/session.go:71-74 | setting the bit of an older number, or nothing beyond 1024, keeps the bitmap right |
| Words.CarriesBit | transport/session/session.go:112-115 | bit i of a word shifted up by s and or-ed with the rest of the word below is bit i - s of the word, or bit 64 + i - s of the word below |
| Words.SetsBit | transport/session/session.go:89-93 | or-ing the mask sets that bit and no other |
| Words.TestsBit | transport/session/session.go:83-87 | and-ing with the mask is nonzero exactly when the bit is set |
| Cipher.NonceDeterminesSequence | crypto/cipher.go:25-39 | equal nonces carry equal sequence numbers, whatever session, key and direction |
| Cipher.NonceBinds | crypto/cipher.go:25-39 | two nonces that agree whatever function is put in place of the hash have the same session id, key, direction and sequence number |
| Cipher.RekeyBinds | crypto/cipher.go:52-65 | two next keys that agree whatever function is put in place of the hash come from the same key, session id and direction |
| Cipher.HashedBytes | crypto/cipher.go:25-65 | what is hashed for nonces and next keys, byte by byte, shown by a hash that exposes its input |
| Cipher.Layout | crypto/cipher.go:36-50 | where sequence number, epoch and the other fields are in nonce and associated data, read back as numbers |
| Sessions.DirectionsShow | transport/session/session.go:304-316 | the direction byte hashed for nonces and next keys is one from initiator to responder and two back, on either side |
| Cipher.AadDetermines | crypto/cipher.go:41-50 | associated data determine version, type, flags, epoch and sequence number |
| Cipher.DecryptsWhatWasEncrypted | crypto/cipher.go:67-102 | decryption under the same key, nonce and data gives the frame back, and encryption keeps what the data are built from |
| Cipher.FlagArithmetic | crypto/cipher.go:67-102 | the modelled flag operations are the bit operations on the flag byte |
| Cipher.FillNonce | crypto/cipher.go:25-39 | the byte-filling loops give four digest bytes followed by the big-endian sequence number |
| Cipher.FillAAD | crypto/cipher.go:41-50 | the byte-filling loops give the 16 bytes of associated data |
| Streams.DeliversExactlyWhen | transport/tcp/client.go:312-387 | for every list of sends and heartbeats, refused sends included, reading the stream on the mirrored session returns exactly the frames sent if and only if none has the heartbeat's type and none has a payload of 2^32 - 16 bytes or more |
| Streams.Delivers | transport/tcp/client.go:312-346 | in that case the reader ends at the end of the stream with a session mirrored again, heartbeats having used no number |
| Streams.HeartbeatTypedFrameIsLost | transport/tcp/client.go:335-339 | a frame of the heartbeat's type is accepted for sending and is never returned |
| Streams.LongFrameIsLost | transport/frame/frame.go:32-38 | a frame whose ciphertext reaches 2^32 bytes is accepted for sending, and no session reads it back |
| StreamAuthenticity.ReadsPrefix | transport/tcp/client.go:326-346 | on an arbitrary stream, if each frame the reader accepts was sealed by the sender with the nonce and associated data in force there, the frames read are a prefix of those sent |
| StreamAuthenticity.UndisturbedIsUnforged | transport/tcp/client.go:312-346 | under any sound cipher, an undisturbed stream that can be delivered meets the no-forgery condition of `StreamAuthenticity.ReadsPrefix` |
| StreamAuthenticity.SealsInOrder | transport/session/session.go:198-218 | the k-th frame sent is sealed under the k-th number from the sender's counter on, with that number's nonce and associated data, whatever was refused in between |
| Duplex.BothDirectionsDeliver | transport/tcp/client.go:312-346 | however sends, heartbeats and reads of two mirrored sides interleave, each side has read a prefix of what the other sent, all of it once its stream is used up, and its next read returns the next frame, as long as what was sent can be delivered |
| Duplex.StepKeeps | transport/tcp/client.go:312-346 | each send, heartbeat and read keeps both directions: what was read is a prefix of what was sent, and the bytes on the way read as the rest |
| Streams.MirroredOpens | transport/session/session.go:198-241 | one sealed frame opens on the mirrored session, which stays mirrored, type kept and payload 16 bytes longer |
| Streams.ItemsJoin | transport/tcp/client.go:312-324 | sending in several calls is sending the joined list: bytes, frames and session agree |
| Streams.FramingRoundTrip | transport/tcp/client.go:348-387 | reading back a written list of frames gives the list exactly when every payload is shorter than 2^32 |
| Streams.ReadFrameConsumes | transport/tcp/client.go:355-387 | a frame read consumed exactly its own encoding |
| Streams.ParsersAgree | transport/tcp/client.go:355-387 | the frame decoder accepts exactly what the stream reader accepts with version 1 and at most 16 MiB, with the same frame and the same bytes used |
| Clients.WriteFrame | transport/tcp/client.go:348-353 | exactly the frame's encoding is written |
| Clients.ReadFrameFrom | transport/tcp/client.go:355-387 | the frame and the rest of the stream are those of the specification, and a cut-off stream is used up |
| Clients.Client.SendEncrypted | transport/tcp/client.go:312-324 | what is written, the new session and the heartbeat clock are those of sending the frame and then a heartbeat if one is due; a refused frame writes nothing |
| Clients.Client.ReadEncryptedFrame | transport/tcp/client.go:326-346 | result, session and remaining stream are those of skipping heartbeats and decrypting the first other frame; one heartbeat is written for each skipped one at which one was due by the clock at that point, and the heartbeat clock is the last of those readings |
| Clients.AnswersAreSpaced | transport/tcp/client.go:290-339 | however many heartbeats one read skips, those written in answer are at least 5 seconds apart, counting from the last one before |
| Clients.AnswersAreComplete | transport/tcp/client.go:290-339 | with a clock that does not go back, at every skipped heartbeat less than 5 seconds have passed since one was written |
| Clients.FinishReadsAsHeartbeat | transport/handshake/handshake.go:19-25 | a client finish has the heartbeat's message type: a reader skips it, and a client waiting for its answer fails on it as on a heartbeat |
| Clients.Client.MaybeSendHeartbeat | transport/tcp/client.go:290-300 | a heartbeat is written and the clock reset exactly when one is due |
| Clients.Client.HandshakeSecure | transport/tcp/client.go:111-156 | what is written and read is the client's side of the handshake, and a session is installed only when it completed |
| Clients.Exchange | transport/tcp/client.go:122-152 | hello, answer and finish go over the connection in order, stopping at the first error with what was written so far |
| HandshakeAgreement.InitiatorAgreement | transport/handshake/handshake.go:788-828 | in every run, an initiator that finalizes with an honest pinned responder key has its own hello stored, and a responder with that key signed the same client hello and the same server hello apart from its signature |
| HandshakeAgreement.ResponderAgreement | transport/handshake/handshake.go:1003-1031 | in every run, a responder that accepts a finish from an honest pinned key stores exactly the pair an initiator with that key signed |
| HandshakeAgreement.PeersAreAuthentic | transport/handshake/handshake.go:303-324 | in every run, a stored peer bundle has the version and algorithm in use and a pinned key, and if that key is honest it is, apart from its signature, a bundle this key signed |
| HandshakeAgreement.BundleMessageInjective | transport/handshake/handshake.go:326-341 | what is signed of a bundle determines all its fields but the signature |
| HandshakeAgreement.SignedMessagesBind | transport/handshake/handshake.go:1087-1119 | a signed hello or finish message binds the transcript hash, both ephemeral keys and both static keys |
| HandshakeKeys.KeysBindSecrets | transport/handshake/handshake.go:1121-1159 | two finished sides, of either role, whose transport keys agree whatever function is put in place of the key derivation agree in all four shared secrets, one by one |
| HandshakeKeys.KeysShow | transport/handshake/handshake.go:1129-1159 | the key material is the four secrets in order, ephemeral-ephemeral, initiator ephemeral with responder static, the reverse, static-static; the first half of the result is the key towards the responder |
| HandshakeKeys.KeysBindTranscript | transport/handshake/handshake.go:1135-1140 | two finished sides whose keys agree whatever function is put in place of the hash, under a derivation that shows its salt, hold the same hellos apart from the signature |
| HandshakeKeys.SessionIdBindsTranscript | transport/handshake/handshake.go:1161-1168 | two finished sides whose session ids agree whatever function is put in place of the hash hold the same hellos apart from the signature |
| HandshakeKeys.HashInputsSeparate | transport/handshake/handshake.go:1069-1164 | what is hashed for the transcript, the salt and the session id is never the same |
| HandshakeAgreement.InitiatorOutputIsMirrored | transport/handshake/handshake.go:866-913 | in every run, an initiator that finalizes can build its finish, and the responder it agreed with, as it was when it answered, accepts that finish with the mirrored output |
| HandshakeAgreement.ResponderOutputIsMirrored | transport/handshake/handshake.go:1003-1067 | in every run, the initiator the responder agreed with, as it was when it signed, finalizes to the mirrored output |
| HandshakeAgreement.OutputsMirror | transport/handshake/handshake.go:1033-1171 | on matching hellos: equal nonzero session ids, crossed keys, the capabilities exactly those both policies offer and nonzero, the payload limit the largest within both policies and nonzero, each naming the other's identity |
| HandshakeAgreement.UnmodifiedFinish | transport/handshake/handshake.go:830-864 | an unmodified finish is accepted exactly when the initiator can finalize, and then the rekey limits are equal too |
| HandshakeAgreement.HonestHandshakeCompletes | transport/handshake/handshake.go:777-1067 | two compatible endpoints that pin each other complete the undisturbed handshake exactly when no shared secret fails, with mirrored outputs |
| HandshakeAgreement.HonestHellosSucceed | transport/handshake/handshake.go:777-828 | their hellos are framed, accepted and stored equal on both sides |
| HandshakeAgreement.StoredThoughUnframed | transport/handshake/handshake.go:784-785 | hellos are stored before they are framed, also those whose frame is refused for its size |
| HandshakeRuns.HonestRun | transport/handshake/handshake.go:777-1067 | for any two compatible endpoints there is a run without forgery or collision at whose end both honest sides finish, so the agreement results are about something |
| HandshakeAgreement.SignedBundleValidates | transport/handshake/handshake.go:182-207 | a self-signed bundle exists exactly for key ids up to 65535 bytes and validates exactly within its window for those who pin its key; such endpoints are well formed |
| HandshakeAgreement.KindsDiffer | transport/handshake/handshake.go:1087-1119 | no message signed is of two kinds: bundle, server hello and client finish |
| HandshakeAgreement.HashDetermines | transport/handshake/handshake.go:1069-1085 | equal transcript hashes within a run mean equal hellos apart from the signature |
| HandshakeProtocol.RunKeepsInv | transport/handshake/handshake.go:777-1001 | in every run, stored hellos passed every check, honest keys signed only their bundles and for a reason, and every offer and consent is a state the endpoint was in |
| HandshakeProtocol.StepKeepsInv | transport/handshake/handshake.go:777-1001 | each operation of any endpoint on any delivered frame keeps that invariant and forgets nothing |
| HandshakeProtocol.CheckedServerHello | transport/handshake/handshake.go:788-828 | a server hello is stored only with a bundle of the version and algorithm in use, within its window, from a pinned key and with a signature that verifies, with common capabilities, a payload limit within policy and a verified signature over both hellos |
| HandshakeProtocol.AnsweredClientHello | transport/handshake/handshake.go:950-1001 | an answer exists only for such a bundle, accepts exactly the capabilities both offer and the largest payload limit within both, and carries a signature over both hellos |
| HandshakeMessages.TranscriptInjective | transport/handshake/handshake.go:1069-1085 | the concatenated transcript determines every field of both hellos except the signature |
| HandshakeMessages.TranscriptParses | transport/handshake/handshake.go:401-407 | reading the transcript as two hellos gives back what it was made from, with nothing left over |
| HandshakeMessages.ClientHelloRoundTrip | transport/handshake/handshake.go:409-463 | framing succeeds exactly for key ids up to 65345 bytes; the frame parses back; with any bytes appended it does not parse |
| HandshakeMessages.ServerHelloRoundTrip | transport/handshake/handshake.go:551-605 | the same up to 65281 bytes |
| HandshakeMessages.ClientFinishRoundTrip | transport/handshake/handshake.go:660-712 | the frame parses back exactly when the role hint is valid; with any bytes appended it does not parse |
| HandshakeMessages.ReservedAreZero | transport/handshake/handshake.go:409-426 | handshake frames are plain version-1 frames whose payload names their kind, and all reserved bytes are zero |
| HandshakeMessages.BundleCanonical | transport/handshake/handshake.go:283-301 | bytes parse to a bundle exactly when they are its encoding |
| HandshakeMessages.TakeBundleConsumes | transport/handshake/handshake.go:225-281 | decoding a bundle consumes exactly the bytes encoding it again gives |
| HandshakeMessages.BundleBytes | transport/handshake/handshake.go:209-223 | a bundle encodes exactly for key ids up to 65535 bytes, into 148 bytes more |
| HandshakeCodecs.WriteBundle | transport/handshake/handshake.go:209-223 | exactly the encoding is appended, or nothing on refusal |
| HandshakeCodecs.ReadBundle | transport/handshake/handshake.go:225-281 | result and remaining bytes are those of the specification |
| HandshakeCodecs.FrameClientHello | transport/handshake/handshake.go:409-426 | the writer produces the specified frame or error |
| HandshakeCodecs.ParseClientHello | transport/handshake/handshake.go:428-463 | the reader produces the specified hello or error |
| HandshakeCodecs.FrameServerHello | transport/handshake/handshake.go:551-568 | the writer produces the specified frame or error |
| HandshakeCodecs.ParseServerHello | transport/handshake/handshake.go:570-605 | the reader produces the specified hello or error |
| HandshakeCodecs.FrameClientFinish | transport/handshake/handshake.go:660-675 | the writer produces the specified frame |
| HandshakeCodecs.ParseClientFinish | transport/handshake/handshake.go:677-712 | the reader produces the specified finish or error |
| Handshakes.SessionIdOf | transport/handshake/handshake.go:1161-1168 | a session id is never zero |
| Handshakes.TrustStore.Pin | transport/handshake/handshake.go:154-159 | exactly the given key is added |
| Handshakes.SecureInitiator.constructor | transport/handshake/handshake.go:753-775 | a new initiator has stored nothing and its ephemeral keys fit |
| Handshakes.SecureInitiator.Start | transport/handshake/handshake.go:777-786 | the hello is stored even when it cannot be framed |
| Handshakes.SecureInitiator.ReceiveServerHello | transport/handshake/handshake.go:788-828 | result and stored hello are those of the value-level checks, in their order |
| Handshakes.SecureInitiator.Finish | transport/handshake/handshake.go:830-864 | the frame or error is that of the value-level endpoint, whose state is unchanged |
| Handshakes.SecureInitiator.Complete | transport/handshake/handshake.go:866-913 | the output or error is that of the value-level endpoint |
| Handshakes.SecureResponder.constructor | transport/handshake/handshake.go:926-948 | a new responder has stored nothing and its ephemeral keys fit |
| Handshakes.SecureResponder.ReceiveClientHello | transport/handshake/handshake.go:950-1001 | result and stored hellos are those of the value-level endpoint |
| Handshakes.SecureResponder.ReceiveClientFinish | transport/handshake/handshake.go:1003-1067 | the output or error is that of the value-level endpoint |
| Frames.DecodeFrameExactly | transport/frame/frame.go:40-75 | decoding accepts exactly the encodings of version-1 frames of at most 16 MiB, followed by anything, and consumes exactly the encoding |
| Frames.FrameLayout | transport/frame/frame.go:32-38 | where version, type, flags, length and payload are in an encoded frame |
| Frames.DecodeFrameCanonical | transport/frame/frame.go:40-75 | two byte strings that decode fully to the same frame are equal |
| Frames.Encode | transport/frame/frame.go:32-38 | exactly the encoding is appended |
| Frames.Decode | transport/frame/frame.go:40-75 | result and remaining bytes are those of the specification |
| Codec.Decoder.ReadBytes | binary/decoder.go:23-30 | the next bytes are returned and passed over, or, when too few are left, nothing moves |
| Codec.Decoder.ReadU8 | binary/decoder.go:32-38 | the next byte, or an error without moving |
| Codec.Decoder.ReadU16 | binary/decoder.go:55-61 | the number whose big-endian form comes next, or an error without moving |
| Codec.Decoder.ReadU32 | binary/decoder.go:63-69 | the number whose big-endian form comes next, or an error without moving |
| Codec.Decoder.ReadU64 | binary/decoder.go:71-77 | the number whose big-endian form comes next, or an error without moving |
| Codec.Encoder.WriteU16 | binary/encoder.go:30-34 | two big-endian bytes are appended |
| Codec.Encoder.WriteU32 | binary/encoder.go:36-40 | four big-endian bytes are appended |
| Codec.Encoder.WriteU64 | binary/encoder.go:42-46 | eight big-endian bytes are appended |
| Codec.Encoder.WriteBytes | binary/encoder.go:48-50 | the bytes are appended |
| Bytes.ValueOfBigEndian | binary/encoder.go:30-46 | reading the big-endian form of a number that fits gives the number |
| Bytes.BigEndianOfValue | binary/decoder.go:55-77 | writing the number read from bytes gives the bytes |
| Bytes.MostSignificantFirst | binary/encoder.go:36-40 | the most significant byte comes first |
| AppMessages.TakeMessageExactly | app/app.go:45-75 | decoding accepts exactly the encodings within 8 MiB, followed by anything, and consumes exactly the encoding |
| AppMessages.MessageRoundTrip | app/app.go:77-89 | a message within 8 MiB survives its frame, which is a plain version-1 frame |
| AppMessages.AckRoundTrip | app/app.go:105-134 | every acknowledgement survives message and frame, with its own sequence number and its kind |
| AppMessages.ChunkRoundTrip | app/app.go:144-187 | a chunk survives message and frame exactly when its payload is at most 8 MiB minus 12 bytes |
| AppMessages.WriteMessage | app/app.go:36-43 | exactly the encoding is appended |
| AppMessages.ReadMessage | app/app.go:45-75 | result and remaining bytes are those of the specification |
| AppMessages.ParseMessage | app/app.go:83-89 | the reader produces the specified message or error |
| AppMessages.ParseChunk | app/app.go:159-187 | the reader produces the specified chunk or error |
| Inboxes.Inbox.Push | app/app.go:206-210 | the message goes last, in place when the array has room and else in a new array; every channel stays one queue of its own |
| Inboxes.Inbox.Pop | app/app.go:212-221 | the first message comes out by moving the slice on in its array, and every channel stays one queue of its own |
| Inboxes.Inbox.PopChannel | app/app.go:223-233 | the oldest message of the channel comes out of the middle of the queue, in the same array; every other channel keeps its order; none exactly when the channel is empty |
| Inboxes.CutOut | app/app.go:228 | appending the tail onto the head moves the later elements down by one in the array and leaves the last place as it was |
| Inboxes.Inbox.Conserves | app/app.go:206-233 | over every run, messages pushed are exactly those popped and those queued |
| Inboxes.TakesHead | app/app.go:226-230 | cutting out the first message of a channel removes that channel's head and nothing of any other |
| Inboxes.RefinesTake | app/app.go:223-233 | taking the first message of its channel out of the queue keeps every channel a queue of its own |
| Inboxes.Messenger.AllocSeq | app/app.go:261-265 | the number is the count of the channel's frames so far, modulo 2^32 |
| Inboxes.Messenger.BuildFrame | app/app.go:267-271 | the k-th frame of a channel carries k modulo 2^32 and the given message |
| Inboxes.ConsecutiveNumbers | app/app.go:261-271 | consecutive frames of a channel carry consecutive numbers modulo 2^32, whatever other channels do between them |
| AppDelivery.MessagesArrive | transport/router/router.go:53-63 | messages built by a new messenger, sent with heartbeats anywhere between, read, parsed and queued arrive as they were built; each channel holds its requests in order, numbered from 0 modulo 2^32 |
| AppDelivery.NumberedPerChannel | app/app.go:261-271 | on every channel, the k-th message built is the k-th request's, numbered k modulo 2^32 |
| AppDelivery.HandleAppMessage | transport/router/router.go:53-63 | a frame that parses is queued last and the session touched; another one changes nothing |
| Subscribers.StableSubscriberSet.Add | app/app.go:299-306 | the set gains exactly the pair; every list is strictly ascending and holds exactly the set's clients; other lists are untouched |
| Subscribers.StableSubscriberSet.Remove | app/app.go:308-319 | the set loses exactly the pair, filtered in place; the order stays; other lists are untouched |
| Subscribers.StableSubscriberSet.Subscribers | app/app.go:321-328 | a new array holding the channel's list |
| Subscribers.SnapshotSurvives | app/app.go:308-328 | a list handed out is not altered by any later run of additions and removals, after which the set is the one they describe |
| Subscribers.Dedupe | app/app.go:330-341 | of a sorted list, a strictly ascending one with the same elements, in a new array unless empty |
| Subscribers.FilterInPlace | app/app.go:311-317 | writing into the array being read gives the list without the client |
| Subscribers.WithoutAscending | app/app.go:308-319 | removal keeps a list strictly ascending |
| Assumptions.RecordAssumptionsHold | crypto/cipher.go:52-102 | the assumptions of the record protocol are satisfiable, for chains of any practical length |
| Assumptions.RearrangedWireIsUnforged | crypto/cipher.go:84-102 | with the stand-in cipher, a stream of the sender's frames and heartbeats is unforged however the network drops, repeats and reorders them |
| Assumptions.CompatibleEndpointsExist | transport/handshake/handshake.go:182-207 | with the stand-ins there are two compatible endpoints that pin each other |
| Assumptions.HandshakeAssumptionsHold | transport/handshake/handshake.go:123-142 | the algebraic assumptions of the handshake are satisfiable |

## Left out

- Bodies of SHA-256, HKDF, X25519, Ed25519 and ChaCha20-Poly1305 are library code and not part of this model; they are functions with the stated assumptions. Key secrecy and confidentiality are not claimed.
- RecordGuarantees.OrderedPrefix: and the other guarantees about receiving hold for runs of any length in which each direction is rekeyed at most `horizon` times, because 32-byte keys must repeat at last; the horizon is arbitrary.
- RecordGuarantees.AtMostOnce: across two settings of the replay mode a record may be accepted again; `RecordModes.ModeChangeRepeatsExactly` says exactly when.
- Duplex.BothDirectionsDeliver: rekeying is no part of the client's send and read, so the conversation stays in one epoch.
- HandshakeAgreement.OutputsMirror: rekey limits are the responder's own copy from the finish, outside the signed message; they are claimed equal only for an unmodified finish (`HandshakeAgreement.UnmodifiedFinish`).
- HandshakeAgreement.HashDetermines: freedom from collisions is assumed only of the transcripts of hellos accepted, answered or signed in the run, since a hash with 32 bytes of output cannot be injective.
- Subscribers.SortSlice: an insertion sort stands for `sort.Slice`, of which only the sorted result is used.
- Words are numbers with Go's definition of shifts, and `int` has 64 bits, as on the platforms served; a runtime fault is an outcome, after which the state is as the fault left it.
- Clock readings are arguments: one for each call, and in `ReadEncrypted` one for each frame it reads, where the source may read the clock up to three times within that step. Ephemeral keys are arguments. A locked method is one step.
- Slices.Grow: the spare capacity of a grown slice is one choice; Go leaves it open, and no contract that uses it depends on it.
- Writes to the connection succeed, and reading ends with the stream; `Dial`, `Close`, timeouts of the heartbeat, environment variables, hex and trust-pin parsing are I/O and configuration.
- Of the router, the two handlers are modelled; whether a heartbeat has one is a parameter, and dispatch is a table lookup.
- `ReadString` and its UTF-8 check, `ReadBool`, `ReadVarBytes`, their writers, and `DeriveSessionKey` have no caller in what is modelled.
- Error values carry the message without wrapped causes or numbers; messages longer than ChaCha20-Poly1305 allows are not refused.
- The capability bits are 32-bit vectors in messages and numbers on the wire, and key ids are byte strings.
