/**
 Recipient slots (vnmcore/src/container/recipient.rs): the master key sealed once for every
 credential, found again by probing the ciphers in a fixed order.
 */
module Recipients {
  import opened Wrappers
  import opened Bytes
  import opened Cipher
  import opened Layout

  /** The ASCII bytes of "vnm:pw:v1" and "vnm:key:v1". */
  const AAD_PW: seq<byte> := [118, 110, 109, 58, 112, 119, 58, 118, 49]
  const AAD_KEY: seq<byte> := [118, 110, 109, 58, 107, 101, 121, 58, 118, 49]

  const ALL_CIPHERS: seq<CipherAlgorithm> := [XChaCha20Poly1305, DeoxysII256, Serpent256, Triple]

  type Password = seq<byte>
  type PublicKey = seq<byte>
  type PrivateKey = seq<byte>

  /** An ephemeral key, a ciphertext and the secret both sides share. */
  datatype Encapsulation = Encapsulation(ephemeral: seq<byte>, ciphertext: seq<byte>, secret: seq<byte>)

  /** Password hashing and the hybrid key encapsulation, as far as the slots use them. */
  datatype Keying = Keying(
    passwordKey: (Password, bool, seq<byte>) -> seq<byte>,
    publicKey: PrivateKey -> PublicKey,
    encapsulate: (PublicKey, seq<byte>) -> Encapsulation,
    decapsulate: (PrivateKey, seq<byte>, seq<byte>) -> Option<seq<byte>>)

  /** Sizes, and decapsulation with the matching private key gives the shared secret back. */
  ghost predicate LawfulKeying(g: Keying) {
    && (forall pk, coins ::
          |g.encapsulate(pk, coins).ephemeral| == X25519_PK_SIZE && |g.encapsulate(pk, coins).ciphertext| == CT_SIZE)
    && (forall sk, coins ::
          var e := g.encapsulate(g.publicKey(sk), coins);
          g.decapsulate(sk, e.ephemeral, e.ciphertext) == Some(e.secret))
  }

  function Enc32(c: CipherAlgorithm): (n: nat)
    ensures n <= VNMB_ENCRYPTED_32_MAX && (c.Triple? <==> n == VNMB_ENCRYPTED_32_MAX)
  {
    VnmbOverhead(c) + 32
  }

  // ── Slot images ───────────────────────────────────────────────────────────

  /** A password slot: salt, profile, and the master key sealed with all three ciphers. */
  ghost predicate PasswordSlotWith(s: Suite, g: Keying, k: seq<byte>, pw: Password, slot: seq<byte>, salt: seq<byte>,
                                   profile: byte, nonces: seq<byte>) {
    && |salt| == 32 && |nonces| == NonceSectionLen(Triple)
    && slot == salt + [profile] + Sealed(s, g.passwordKey(pw, profile == 1, salt), Triple, AAD_PW, nonces, k)
  }

  /** A slot of this password whose key is derived, and recorded to be derived, with this profile. */
  ghost predicate IsPasswordSlot(s: Suite, g: Keying, k: seq<byte>, pw: Password, profile: byte, slot: seq<byte>) {
    exists salt, nonces :: PasswordSlotWith(s, g, k, pw, slot, salt, profile, nonces)
  }

  /** A key slot: the encapsulation, the master key sealed under its secret, zero padding. */
  ghost predicate KeySlotWith(s: Suite, g: Keying, k: seq<byte>, pk: PublicKey, c: CipherAlgorithm, slot: seq<byte>,
                              coins: seq<byte>, nonces: seq<byte>) {
    && |nonces| == NonceSectionLen(c)
    && var e := g.encapsulate(pk, coins);
    slot == e.ephemeral + e.ciphertext + Sealed(s, e.secret, c, AAD_KEY, nonces, k)
      + Zeros(VNMB_ENCRYPTED_32_MAX - Enc32(c))
  }

  ghost predicate IsKeySlot(s: Suite, g: Keying, k: seq<byte>, pk: PublicKey, c: CipherAlgorithm, slot: seq<byte>) {
    exists coins, nonces :: KeySlotWith(s, g, k, pk, c, slot, coins, nonces)
  }

  lemma SlotSizes(s: Suite, g: Keying, k: seq<byte>, pw: Password, profile: byte, pk: PublicKey, c: CipherAlgorithm,
                  slot: seq<byte>)
    requires Ideal(s) && LawfulKeying(g) && |k| == 32
    ensures IsPasswordSlot(s, g, k, pw, profile, slot) ==> |slot| == PW_SLOT_SIZE && slot[32] == profile
    ensures IsKeySlot(s, g, k, pk, c, slot) ==> |slot| == KEY_SLOT_SIZE
  {
    hide Sealed;
    if IsPasswordSlot(s, g, k, pw, profile, slot) {
      var salt, nonces :| PasswordSlotWith(s, g, k, pw, slot, salt, profile, nonces);
      SealedLength(s, g.passwordKey(pw, profile == 1, salt), Triple, AAD_PW, nonces, k);
    }
    if IsKeySlot(s, g, k, pk, c, slot) {
      var coins, nonces :| KeySlotWith(s, g, k, pk, c, slot, coins, nonces);
      SealedLength(s, g.encapsulate(pk, coins).secret, c, AAD_KEY, nonces, k);
    }
  }

  // ── Encoding ──────────────────────────────────────────────────────────────

  const PW_SALT_LEN: nat := 32
  /** How many random bytes a password slot and an encapsulation take. */
  const PW_COINS: nat := PW_SALT_LEN + TRIPLE_NONCE_LEN
  const KEM_COINS: nat := 64

  /** A password slot whose salt and nonces were drawn from position `at` of the generator's stream on. */
  ghost predicate PasswordSlotFrom(s: Suite, g: Keying, k: seq<byte>, pw: Password, profile: byte, slot: seq<byte>,
                                   at: nat) {
    PasswordSlotWith(s, g, k, pw, slot, s.Coins(at, PW_SALT_LEN), profile,
                     s.Coins(at + PW_SALT_LEN, NonceSectionLen(Triple)))
  }

  /** A key slot whose encapsulation and nonces were drawn from position `at` of the generator's stream on. */
  ghost predicate KeySlotFrom(s: Suite, g: Keying, k: seq<byte>, pk: PublicKey, c: CipherAlgorithm, slot: seq<byte>,
                              at: nat) {
    KeySlotWith(s, g, k, pk, c, slot, s.Coins(at, KEM_COINS), s.Coins(at + KEM_COINS, NonceSectionLen(c)))
  }

  method EncodePasswordSlot(s: Suite, g: Keying, k: seq<byte>, pw: Password, kdfProfile: byte, at: nat)
    returns (slot: seq<byte>)
    requires Ideal(s) && |k| == 32
    ensures PasswordSlotFrom(s, g, k, pw, kdfProfile, slot, at)
    ensures |slot| == PW_SLOT_SIZE && IsPasswordSlot(s, g, k, pw, kdfProfile, slot)
  {
    var buf := new byte[PW_SLOT_SIZE](_ => 0);
    assert buf[..] == [] + Zeros(buf.Length);
    var salt := s.Coins(at, PW_SALT_LEN);
    Fill(buf, 0, salt, []);
    assert [] + salt == salt;
    Fill(buf, 32, [kdfProfile], salt);
    var key := g.passwordKey(pw, kdfProfile == 1, salt);
    var enc := EncryptBlock(s, key, Triple, AAD_PW, k, at + PW_SALT_LEN);
    Fill(buf, 33, enc, salt + [kdfProfile]);
    slot := buf[..];
    assert slot == salt + [kdfProfile] + enc;
    assert PasswordSlotWith(s, g, k, pw, slot, salt, kdfProfile, s.Coins(at + PW_SALT_LEN, NonceSectionLen(Triple)));
  }

  method EncodeKeySlot(s: Suite, g: Keying, k: seq<byte>, pk: PublicKey, c: CipherAlgorithm, at: nat)
    returns (slot: seq<byte>)
    requires Ideal(s) && LawfulKeying(g) && |k| == 32
    ensures KeySlotFrom(s, g, k, pk, c, slot, at)
    ensures |slot| == KEY_SLOT_SIZE && IsKeySlot(s, g, k, pk, c, slot)
  {
    var buf := new byte[KEY_SLOT_SIZE](_ => 0);
    assert buf[..] == [] + Zeros(buf.Length);
    var coins := s.Coins(at, KEM_COINS);
    var e := g.encapsulate(pk, coins);
    Fill(buf, 0, e.ephemeral, []);
    assert [] + e.ephemeral == e.ephemeral;
    Fill(buf, X25519_PK_SIZE, e.ciphertext, e.ephemeral);
    var enc := EncryptBlock(s, e.secret, c, AAD_KEY, k, at + KEM_COINS);
    Fill(buf, X25519_PK_SIZE + CT_SIZE, enc, e.ephemeral + e.ciphertext);
    slot := buf[..];
    assert KeySlotWith(s, g, k, pk, c, slot, coins, s.Coins(at + KEM_COINS, NonceSectionLen(c)));
  }

  // ── Probing ───────────────────────────────────────────────────────────────

  /** Whether one cipher opens the start of the sealed area to a 32-byte key. */
  function OpensWith(s: Suite, key: seq<byte>, c: CipherAlgorithm, aad: seq<byte>, enc: seq<byte>): Option<seq<byte>>
    requires |enc| == VNMB_ENCRYPTED_32_MAX
  {
    var r := OpenBlock(s, key, c, aad, enc[..Enc32(c)]);
    if r.Ok? && |r.value| == 32 then Some(r.value) else None
  }

  /** The first cipher from position i on that opens the area, with the key it yields. */
  function Probe(s: Suite, key: seq<byte>, aad: seq<byte>, enc: seq<byte>, i: nat): Option<(seq<byte>, CipherAlgorithm)>
    requires |enc| == VNMB_ENCRYPTED_32_MAX && i <= |ALL_CIPHERS|
    decreases |ALL_CIPHERS| - i
  {
    if i == |ALL_CIPHERS| then None
    else
      var r := OpensWith(s, key, ALL_CIPHERS[i], aad, enc);
      if r.Some? then Some((r.value, ALL_CIPHERS[i])) else Probe(s, key, aad, enc, i + 1)
  }

  method ProbeCiphers(s: Suite, key: seq<byte>, aad: seq<byte>, enc: seq<byte>)
    returns (r: Option<(seq<byte>, CipherAlgorithm)>)
    requires Ideal(s) && |enc| == VNMB_ENCRYPTED_32_MAX
    ensures r == Probe(s, key, aad, enc, 0)
  {
    hide OpenBlock;
    for i := 0 to |ALL_CIPHERS|
      invariant Probe(s, key, aad, enc, 0) == Probe(s, key, aad, enc, i)
    {
      var c := ALL_CIPHERS[i];
      var out := new byte[32](_ => 0);
      var ok := DecryptBlockInto32(s, key, c, aad, enc[..Enc32(c)], out);
      if ok { return Some((out[..], c)); }
    }
    r := None;
  }

  /** What a password makes of a slot. */
  function PasswordOpens(s: Suite, g: Keying, slot: seq<byte>, pw: Password): Option<(seq<byte>, CipherAlgorithm)>
    requires |slot| == PW_SLOT_SIZE
  {
    Probe(s, g.passwordKey(pw, slot[32] == 1, slot[..32]), AAD_PW, slot[33..], 0)
  }

  method TryPasswordSlot(s: Suite, g: Keying, slot: seq<byte>, pw: Password)
    returns (r: Option<(seq<byte>, CipherAlgorithm)>)
    requires Ideal(s) && |slot| == PW_SLOT_SIZE
    ensures r == PasswordOpens(s, g, slot, pw)
  {
    var salt, kdfProfile := slot[..32], slot[32];
    var key := g.passwordKey(pw, kdfProfile == 1, salt);
    r := ProbeCiphers(s, key, AAD_PW, slot[33..]);
  }

  /** What a private key makes of a slot. */
  function KeyOpens(s: Suite, g: Keying, slot: seq<byte>, sk: PrivateKey): Option<(seq<byte>, CipherAlgorithm)>
    requires |slot| == KEY_SLOT_SIZE
  {
    var shared := g.decapsulate(sk, slot[..X25519_PK_SIZE], slot[X25519_PK_SIZE..X25519_PK_SIZE + CT_SIZE]);
    if shared.None? then None else Probe(s, shared.value, AAD_KEY, slot[X25519_PK_SIZE + CT_SIZE..], 0)
  }

  method TryKeySlot(s: Suite, g: Keying, slot: seq<byte>, sk: PrivateKey)
    returns (r: Option<(seq<byte>, CipherAlgorithm)>)
    requires Ideal(s) && |slot| == KEY_SLOT_SIZE
    ensures r == KeyOpens(s, g, slot, sk)
  {
    var shared := g.decapsulate(sk, slot[..X25519_PK_SIZE], slot[X25519_PK_SIZE..X25519_PK_SIZE + CT_SIZE]);
    if shared.None? { return None; }
    r := ProbeCiphers(s, shared.value, AAD_KEY, slot[X25519_PK_SIZE + CT_SIZE..]);
  }

  // ── Round trips ───────────────────────────────────────────────────────────

  /** Whether no cipher listed before c opens the area. */
  ghost predicate NoneBefore(s: Suite, key: seq<byte>, aad: seq<byte>, enc: seq<byte>, c: CipherAlgorithm)
    requires |enc| == VNMB_ENCRYPTED_32_MAX
  {
    forall i, j :: 0 <= i < j < |ALL_CIPHERS| && ALL_CIPHERS[j] == c ==>
      OpensWith(s, key, ALL_CIPHERS[i], aad, enc).None?
  }

  /** An area sealed with c yields c exactly when no cipher listed before c opens it too. */
  lemma ProbeFinds(s: Suite, key: seq<byte>, aad: seq<byte>, enc: seq<byte>, c: CipherAlgorithm, k: seq<byte>)
    requires |enc| == VNMB_ENCRYPTED_32_MAX && OpensWith(s, key, c, aad, enc) == Some(k)
    ensures Probe(s, key, aad, enc, 0) == Some((k, c)) <==> NoneBefore(s, key, aad, enc, c)
  {
    hide OpensWith;
    var a, b, d, e := OpensWith(s, key, ALL_CIPHERS[0], aad, enc), OpensWith(s, key, ALL_CIPHERS[1], aad, enc),
                      OpensWith(s, key, ALL_CIPHERS[2], aad, enc), OpensWith(s, key, ALL_CIPHERS[3], aad, enc);
    assert Probe(s, key, aad, enc, 4) == None;
    assert Probe(s, key, aad, enc, 3) == if e.Some? then Some((e.value, Triple)) else None;
    assert Probe(s, key, aad, enc, 2) == if d.Some? then Some((d.value, Serpent256)) else Probe(s, key, aad, enc, 3);
    assert Probe(s, key, aad, enc, 1) == if b.Some? then Some((b.value, DeoxysII256)) else Probe(s, key, aad, enc, 2);
    assert Probe(s, key, aad, enc, 0) ==
      if a.Some? then Some((a.value, XChaCha20Poly1305)) else Probe(s, key, aad, enc, 1);
    match c
    case XChaCha20Poly1305 =>
    case DeoxysII256 => assert ALL_CIPHERS[1] == c;
    case Serpent256 => assert ALL_CIPHERS[2] == c;
    case Triple => assert ALL_CIPHERS[3] == c;
  }

  lemma SealedOpensWith(s: Suite, key: seq<byte>, c: CipherAlgorithm, aad: seq<byte>, nonces: seq<byte>, k: seq<byte>,
                        enc: seq<byte>)
    requires Ideal(s) && |nonces| == NonceSectionLen(c) && |k| == 32 && |enc| == VNMB_ENCRYPTED_32_MAX
    requires Enc32(c) <= |enc| && enc[..Enc32(c)] == Sealed(s, key, c, aad, nonces, k)
    ensures OpensWith(s, key, c, aad, enc) == Some(k)
  {
    hide OpenBlock;
    hide Sealed;
    SealedOpens(s, key, c, aad, nonces, k);
  }

  /** The right password recovers the master key exactly when no single cipher opens a prefix of the slot. */
  lemma PasswordRoundTrip(s: Suite, g: Keying, k: seq<byte>, pw: Password, profile: byte, slot: seq<byte>)
    requires Ideal(s) && |k| == 32 && IsPasswordSlot(s, g, k, pw, profile, slot) && |slot| == PW_SLOT_SIZE
    ensures PasswordOpens(s, g, slot, pw) == Some((k, Triple)) <==>
            NoneBefore(s, g.passwordKey(pw, slot[32] == 1, slot[..32]), AAD_PW, slot[33..], Triple)
  {
    hide Sealed;
    hide OpensWith;
    hide NoneBefore;
    hide Probe;
    var salt, nonces :| PasswordSlotWith(s, g, k, pw, slot, salt, profile, nonces);
    var key := g.passwordKey(pw, profile == 1, salt);
    var block := Sealed(s, key, Triple, AAD_PW, nonces, k);
    SealedLength(s, key, Triple, AAD_PW, nonces, k);
    assert slot[..32] == salt && slot[32] == profile && slot[33..] == block && block[..Enc32(Triple)] == block;
    SealedOpensWith(s, key, Triple, AAD_PW, nonces, k, slot[33..]);
    ProbeFinds(s, key, AAD_PW, slot[33..], Triple, k);
  }

  /** The right private key recovers the master key exactly when no cipher listed earlier opens the slot. */
  lemma KeyRoundTrip(s: Suite, g: Keying, k: seq<byte>, sk: PrivateKey, c: CipherAlgorithm, slot: seq<byte>)
    requires Ideal(s) && LawfulKeying(g) && |k| == 32 && IsKeySlot(s, g, k, g.publicKey(sk), c, slot)
    requires |slot| == KEY_SLOT_SIZE
    ensures var shared := g.decapsulate(sk, slot[..X25519_PK_SIZE], slot[X25519_PK_SIZE..X25519_PK_SIZE + CT_SIZE]);
            && shared.Some?
            && (KeyOpens(s, g, slot, sk) == Some((k, c))
                <==> NoneBefore(s, shared.value, AAD_KEY, slot[X25519_PK_SIZE + CT_SIZE..], c))
  {
    hide Sealed;
    hide OpensWith;
    hide NoneBefore;
    hide Probe;
    var coins, nonces :| KeySlotWith(s, g, k, g.publicKey(sk), c, slot, coins, nonces);
    var e := g.encapsulate(g.publicKey(sk), coins);
    var block := Sealed(s, e.secret, c, AAD_KEY, nonces, k);
    SealedLength(s, e.secret, c, AAD_KEY, nonces, k);
    var at := X25519_PK_SIZE + CT_SIZE;
    assert slot[..X25519_PK_SIZE] == e.ephemeral && slot[X25519_PK_SIZE..at] == e.ciphertext;
    assert slot[at..][..Enc32(c)] == block;
    SealedOpensWith(s, e.secret, c, AAD_KEY, nonces, k, slot[at..]);
    ProbeFinds(s, e.secret, AAD_KEY, slot[at..], c, k);
  }

  // ── The laws are consistent ───────────────────────────────────────────────

  function ToyKeying(): Keying {
    Keying((pw, profile, salt) => Zeros(32), sk => sk,
           (pk, coins) => Encapsulation(Zeros(X25519_PK_SIZE), Zeros(CT_SIZE), Zeros(32)),
           (sk, ephemeral, ciphertext) => Some(Zeros(32)))
  }

  lemma KeyingIsConsistent()
    ensures LawfulKeying(ToyKeying())
  {
  }
}
