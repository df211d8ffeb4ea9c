/** crypto/cipher.go: nonces, associated data, rekeying and frame encryption. */
module Cipher {
  import opened Results
  import opened Bytes
  import opened Frames

  /** The library primitives: SHA-256 and ChaCha20-Poly1305. */
  datatype Suite = Suite(
    sha256: Bytes -> Bytes32,
    seal: (Bytes32, Bytes, Bytes, Bytes) -> Bytes,          // key, nonce, plaintext, aad
    open: (Bytes32, Bytes, Bytes, Bytes) -> Option<Bytes>)  // key, nonce, ciphertext, aad
  {
    /** Opening undoes sealing, accepts nothing that sealing could not have made, and a
        ciphertext is 16 bytes longer than its plaintext (section 2.8 of RFC 8439). */
    ghost predicate Sound() {
      && (forall k: Bytes32, n: Bytes, p: Bytes, a: Bytes {:trigger seal(k, n, p, a)} ::
            |seal(k, n, p, a)| == |p| + 16 && open(k, n, seal(k, n, p, a), a) == Some(p))
      && (forall k: Bytes32, n: Bytes, c: Bytes, a: Bytes {:trigger open(k, n, c, a)} ::
            open(k, n, c, a).Some? ==> seal(k, n, open(k, n, c, a).value, a) == c)
    }
  }

  // The flag byte: FlagEncrypted is bit 0.

  predicate HasEncryptedFlag(flags: u8) {
    flags % 2 == 1
  }

  function SetEncryptedFlag(flags: u8): u8 {
    flags - flags % 2 + 1
  }

  function ClearEncryptedFlag(flags: u8): u8 {
    flags - flags % 2
  }

  /** The arithmetic above is the source's bit arithmetic on the flag byte. */
  lemma FlagArithmetic(x: bv8)
    ensures HasEncryptedFlag(x as u8) <==> x & 0x01 != 0
    ensures SetEncryptedFlag(x as u8) == (x | 0x01) as u8
    ensures ClearEncryptedFlag(x as u8) == (x & !0x01) as u8
  {}

  function Ascii(s: string): (b: Bytes)
    ensures |b| == |s|
  {
    seq(|s|, i requires 0 <= i < |s| => s[i] as int % 256)
  }

  const NONCE_PREFIX := Ascii("SHADOWLARK_NONCE_PREFIX")
  const REKEY_PREFIX := Ascii("SHADOWLARK_REKEY")

  function DeriveNonce(c: Suite, sessionId: u64, key: Bytes32, direction: u8, sequence: u64): (n: Bytes)
    ensures |n| == 12
  {
    c.sha256(NONCE_PREFIX + U64(sessionId) + [direction] + key)[..4] + U64(sequence)
  }

  function BuildAAD(f: Frame, epoch: u32, sequence: u64): (a: Bytes)
    ensures |a| == 16
  {
    [f.version, f.msgType, SetEncryptedFlag(f.flags)] + U32(epoch) + U64(sequence) + [0]
  }

  function RekeyMaterial(c: Suite, key: Bytes32, sessionId: u64, direction: u8): Bytes32 {
    c.sha256(REKEY_PREFIX + U64(sessionId) + [direction] + key)
  }

  function EncryptFrame(c: Suite, f: Frame, key: Bytes32, nonce: Bytes, aad: Bytes): Result<Frame> {
    if HasEncryptedFlag(f.flags) then Err("encrypt_frame: already encrypted")
    else Ok(Frame(f.version, f.msgType, SetEncryptedFlag(f.flags), c.seal(key, nonce, f.payload, aad)))
  }

  function DecryptFrame(c: Suite, f: Frame, key: Bytes32, nonce: Bytes, aad: Bytes): Result<Frame> {
    if !HasEncryptedFlag(f.flags) then Err("decrypt_frame: frame not encrypted") else
    match c.open(key, nonce, f.payload, aad)
    case None => Err("chacha20poly1305: message authentication failed")
    case Some(plaintext) => Ok(Frame(f.version, f.msgType, ClearEncryptedFlag(f.flags), plaintext))
  }

  /** Bytes 4..12 of a nonce determine the sequence number, whatever the session or key. */
  lemma NonceDeterminesSequence(c: Suite, sid: u64, sid': u64, k: Bytes32, k': Bytes32,
                                d: u8, d': u8, q: u64, q': u64)
    requires DeriveNonce(c, sid, k, d, q) == DeriveNonce(c, sid', k', d', q')
    ensures q == q'
  {
    Cut(DeriveNonce(c, sid, k, d, q)[..4], U64(q), DeriveNonce(c, sid', k', d', q')[..4], U64(q'));
    U64Injective(q, q');
  }

  // What nonces and keys depend on, told by putting other functions in place of the hash.

  function Filled(v: u8): (b: Bytes32) {
    seq(32, i => v)
  }

  /** Tells one input from all others. */
  function Marking(input: Bytes): Bytes -> Bytes32 {
    (x: Bytes) => if x == input then Filled(0) else Filled(1)
  }

  /** Shows its input from byte `i` on. */
  function Showing(i: nat): Bytes -> Bytes32 {
    (x: Bytes) => ((if i <= |x| then x[i..] else []) + Filled(0))[..32]
  }

  /** What is hashed for a nonce and for the next key, apart from the prefix. */
  lemma KeyedInputInjective(prefix: Bytes, sid: u64, d: u8, k: Bytes32, sid': u64, d': u8, k': Bytes32)
    requires prefix + U64(sid) + [d] + k == prefix + U64(sid') + [d'] + k'
    ensures sid == sid' && d == d' && k == k'
  {
    hide U64;
    Cut(prefix + U64(sid) + [d], k, prefix + U64(sid') + [d'], k');
    Cut(prefix + U64(sid), [d], prefix + U64(sid'), [d']);
    Cut(prefix, U64(sid), prefix, U64(sid'));
    assert [d][0] == [d'][0];
    U64Injective(sid, sid');
  }

  /** A nonce binds session, key, direction and sequence number: two that agree whatever function
      is put in place of the hash agree in all four. */
  lemma NonceBinds(c: Suite, sid: u64, k: Bytes32, d: u8, q: u64, sid': u64, k': Bytes32, d': u8, q': u64)
    requires forall h: Bytes -> Bytes32 ::
               DeriveNonce(c.(sha256 := h), sid, k, d, q) == DeriveNonce(c.(sha256 := h), sid', k', d', q')
    ensures sid == sid' && k == k' && d == d' && q == q'
  {
    hide U64;
    var input, input' := NONCE_PREFIX + U64(sid) + [d] + k, NONCE_PREFIX + U64(sid') + [d'] + k';
    var marked := c.(sha256 := Marking(input));
    var n, n' := DeriveNonce(marked, sid, k, d, q), DeriveNonce(marked, sid', k', d', q');
    assert n == n';
    assert n[0] == Marking(input)(input)[0] && n'[0] == Marking(input)(input')[0];
    KeyedInputInjective(NONCE_PREFIX, sid, d, k, sid', d', k');
    NonceDeterminesSequence(marked, sid, sid', k, k', d, d', q, q');
  }

  /** The next key binds session, direction and the key before it. */
  lemma RekeyBinds(c: Suite, k: Bytes32, sid: u64, d: u8, k': Bytes32, sid': u64, d': u8)
    requires forall h: Bytes -> Bytes32 ::
               RekeyMaterial(c.(sha256 := h), k, sid, d) == RekeyMaterial(c.(sha256 := h), k', sid', d')
    ensures k == k' && sid == sid' && d == d'
  {
    hide U64;
    var input, input' := REKEY_PREFIX + U64(sid) + [d] + k, REKEY_PREFIX + U64(sid') + [d'] + k';
    var marked := c.(sha256 := Marking(input));
    var m, m' := RekeyMaterial(marked, k, sid, d), RekeyMaterial(marked, k', sid', d');
    assert m == m';
    assert m[0] == Marking(input)(input)[0] && m'[0] == Marking(input)(input')[0];
    KeyedInputInjective(REKEY_PREFIX, sid, d, k, sid', d', k');
  }

  /** What is hashed, byte by byte: a hash that shows its input shows the prefix, the session id,
      the direction and the key, and a nonce holds the first four bytes shown. */
  lemma HashedBytes(c: Suite, sid: u64, k: Bytes32, d: u8, q: u64, i: nat)
    ensures var shown := DeriveNonce(c.(sha256 := Showing(i)), sid, k, d, q)[..4];
            i <= 60 ==> shown == (Ascii("SHADOWLARK_NONCE_PREFIX") + U64(sid) + [d] + k)[i..i + 4]
    ensures var shown := RekeyMaterial(c.(sha256 := Showing(i)), k, sid, d);
            i <= 25 ==> shown == (Ascii("SHADOWLARK_REKEY") + U64(sid) + [d] + k)[i..i + 32]
  {
    hide U64, Showing;
    var nonceInput, rekeyInput := NONCE_PREFIX + U64(sid) + [d] + k, REKEY_PREFIX + U64(sid) + [d] + k;
    if i <= 60 {
      ShowsBytes(i, nonceInput, 4);
      assert DeriveNonce(c.(sha256 := Showing(i)), sid, k, d, q)[..4] == Showing(i)(nonceInput)[..4];
    }
    if i <= 25 {
      ShowsBytes(i, rekeyInput, 32);
    }
  }

  lemma ShowsBytes(i: nat, x: Bytes, n: nat)
    requires i + n <= |x| && n <= 32
    ensures Showing(i)(x)[..n] == x[i..i + n]
  {
    var tail := x[i..] + Filled(0);
    assert tail[..32][..n] == tail[..n] == x[i..i + n];
  }

  /** Where everything is in nonce and associated data, read back as numbers. */
  lemma Layout(c: Suite, sid: u64, k: Bytes32, d: u8, f: Frame, epoch: u32, q: u64)
    ensures Value(DeriveNonce(c, sid, k, d, q)[4..]) == q
    ensures var a := BuildAAD(f, epoch, q);
            && a[0] == f.version && a[1] == f.msgType && a[2] == SetEncryptedFlag(f.flags)
            && Value(a[3..7]) == epoch && Value(a[7..15]) == q && a[15] == 0
  {
    hide Value;
    Widths();
    ValueOfBigEndian(4, epoch);
    ValueOfBigEndian(8, q);
    assert DeriveNonce(c, sid, k, d, q)[4..] == U64(q);
    assert BuildAAD(f, epoch, q)[3..7] == U32(epoch) && BuildAAD(f, epoch, q)[7..15] == U64(q);
  }

  /** The associated data determine version, type, flags, epoch and sequence number. */
  lemma AadDetermines(f: Frame, g: Frame, epoch: u32, epoch': u32, q: u64, q': u64)
    requires BuildAAD(f, epoch, q) == BuildAAD(g, epoch', q')
    ensures f.version == g.version && f.msgType == g.msgType
    ensures SetEncryptedFlag(f.flags) == SetEncryptedFlag(g.flags)
    ensures epoch == epoch' && q == q'
  {
    var a, b := BuildAAD(f, epoch, q), BuildAAD(g, epoch', q');
    assert a[0] == b[0] && a[1] == b[1] && a[2] == b[2];
    assert U32(epoch) == a[3..7] == b[3..7] == U32(epoch');
    assert U64(q) == a[7..15] == b[7..15] == U64(q');
    U32Injective(epoch, epoch');
    U64Injective(q, q');
  }

  /** Decrypting an encrypted frame under the same key, nonce and data gives the frame back,
      and encryption keeps everything the associated data are built from. */
  lemma DecryptsWhatWasEncrypted(c: Suite, f: Frame, key: Bytes32, nonce: Bytes, aad: Bytes)
    requires c.Sound() && !HasEncryptedFlag(f.flags)
    ensures EncryptFrame(c, f, key, nonce, aad).Ok?
    ensures DecryptFrame(c, EncryptFrame(c, f, key, nonce, aad).value, key, nonce, aad) == Ok(f)
    ensures forall epoch, q ::
              BuildAAD(EncryptFrame(c, f, key, nonce, aad).value, epoch, q) == BuildAAD(f, epoch, q)
  {}

  // The byte-filling procedures of the source compute these values.

  method FillNonce(c: Suite, sessionId: u64, key: Bytes32, direction: u8, sequence: u64) returns (n: Bytes)
    ensures n == DeriveNonce(c, sessionId, key, direction, sequence)
  {
    hide U64;
    var digest := c.sha256(NONCE_PREFIX + U64(sessionId) + [direction] + key);
    var nonce := new u8[12](i => 0);
    for i := 0 to 4
      invariant forall k | 0 <= k < i :: nonce[k] == digest[k]
    {
      nonce[i] := digest[i];
    }
    for i := 0 to 8
      invariant forall k | 0 <= k < 4 :: nonce[k] == digest[k]
      invariant forall k | 0 <= k < i :: nonce[4 + k] == U64(sequence)[k]
    {
      nonce[4 + i] := U64(sequence)[i];
    }
    n := nonce[..];
    assert n == digest[..4] + U64(sequence);
  }

  method FillAAD(f: Frame, epoch: u32, sequence: u64) returns (a: Bytes)
    ensures a == BuildAAD(f, epoch, sequence)
  {
    hide U32, U64;
    var aad := new u8[16](i => 0);
    aad[0], aad[1], aad[2] := f.version, f.msgType, SetEncryptedFlag(f.flags);
    ghost var head := aad[..3];
    for i := 0 to 4
      invariant aad[..3] == head
      invariant forall k | 0 <= k < i :: aad[3 + k] == U32(epoch)[k]
    {
      aad[3 + i] := U32(epoch)[i];
    }
    for i := 0 to 8
      invariant aad[..3] == head
      invariant forall k | 0 <= k < 4 :: aad[3 + k] == U32(epoch)[k]
      invariant forall k | 0 <= k < i :: aad[7 + k] == U64(sequence)[k]
    {
      aad[7 + i] := U64(sequence)[i];
    }
    aad[15] := 0;
    a := aad[..];
    assert a == head + U32(epoch) + U64(sequence) + [0];
  }
}
