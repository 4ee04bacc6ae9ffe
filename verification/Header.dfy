/**
 The container header of vnmcore/src/container/header.rs: 68 plaintext bytes and an encrypted body
 that fills the rest of the 512 bytes whatever the cipher.
 */
module Header {
  import opened Wrappers
  import opened Bytes
  import opened Cipher
  import opened Layout

  const HEADER_MAGIC: seq<byte> := [0x56, 0x4E, 0x4D, 0x31]
  const FORMAT_VERSION: nat := 1
  const SALT_LEN: nat := 64
  const BODY_OFFSET: nat := 68
  const BODY_AVAILABLE: nat := HEADER_SIZE - BODY_OFFSET
  /** End of the fields of the body; zeros follow. */
  const BODY_FIELDS: nat := 128

  /** The ASCII bytes of "vnm:header:outer:v1" and "vnm:header:hidden:v1". */
  const AAD_OUTER: seq<byte> :=
    [118, 110, 109, 58, 104, 101, 97, 100, 101, 114, 58, 111, 117, 116, 101, 114, 58, 118, 49]
  const AAD_HIDDEN: seq<byte> :=
    [118, 110, 109, 58, 104, 101, 97, 100, 101, 114, 58, 104, 105, 100, 100, 101, 110, 58, 118, 49]

  function Aad(isHidden: bool): seq<byte> {
    if isHidden then AAD_HIDDEN else AAD_OUTER
  }

  function BodyLen(c: CipherAlgorithm): (n: nat)
    ensures n + VnmbOverhead(c) == BODY_AVAILABLE && n >= 333
  {
    BODY_AVAILABLE - VnmbOverhead(c)
  }

  datatype HeaderPayload = HeaderPayload(cipher: CipherAlgorithm, kdfProfile: byte, numPasswordSlots: byte,
                                         numKeySlots: byte,
                                         outerSlots: nat, hiddenStart: nat, rootSlot: nat, createdAt: nat,
                                         volumeLabel: seq<byte>, containerId: seq<byte>)
  {
    /** The widths of the fields. */
    predicate WellFormed() {
      && outerSlots < U64 && hiddenStart < U64 && rootSlot < U64 && createdAt < U64
      && |volumeLabel| == 64 && |containerId| == 16
    }
  }

  // ── Format ────────────────────────────────────────────────────────────────

  function BodyFields(p: HeaderPayload): seq<byte> {
    HEADER_MAGIC + Le(FORMAT_VERSION, 4) + Le(DATA_AREA_OFFSET, 8) + Le(p.outerSlots, 8) + Le(p.hiddenStart, 8)
    + Le(p.rootSlot, 8) + Le(p.createdAt, 8) + p.volumeLabel + p.containerId
  }

  /** The plaintext body: the fields, then zeros. */
  function Body(p: HeaderPayload): (b: seq<byte>)
    requires p.WellFormed()
    ensures |b| == BodyLen(p.cipher)
  {
    BodyFields(p) + Zeros(BodyLen(p.cipher) - BODY_FIELDS)
  }

  /** The four plaintext bytes after the salt; the cipher byte is always zero. */
  function PlainFields(p: HeaderPayload): seq<byte> {
    [0, p.kdfProfile, p.numPasswordSlots, p.numKeySlots]
  }

  /** A whole header for some salt and nonces. */
  ghost predicate IsHeader(s: Suite, k: seq<byte>, isHidden: bool, p: HeaderPayload, raw: seq<byte>) {
    p.WellFormed() && exists salt, nonces :: HeaderWith(s, k, isHidden, p, raw, salt, nonces)
  }

  ghost predicate HeaderWith(s: Suite, k: seq<byte>, isHidden: bool, p: HeaderPayload, raw: seq<byte>, salt: seq<byte>,
                             nonces: seq<byte>)
    requires p.WellFormed()
  {
    && |salt| == SALT_LEN && |nonces| == NonceSectionLen(p.cipher)
    && raw == salt + PlainFields(p) + Sealed(s, k, p.cipher, Aad(isHidden), nonces, Body(p))
  }

  // ── Encoding ──────────────────────────────────────────────────────────────

  method EncodeBody(p: HeaderPayload) returns (body: seq<byte>)
    requires p.WellFormed()
    ensures body == Body(p)
  {
    var buf := new byte[BodyLen(p.cipher)](_ => 0);
    assert buf[..] == [] + Zeros(buf.Length);
    ghost var done: seq<byte> := [];
    Fill(buf, 0, HEADER_MAGIC, done);
    done := done + HEADER_MAGIC;
    Fill(buf, 4, Le(FORMAT_VERSION, 4), done);
    done := done + Le(FORMAT_VERSION, 4);
    Fill(buf, 8, Le(DATA_AREA_OFFSET, 8), done);
    done := done + Le(DATA_AREA_OFFSET, 8);
    Fill(buf, 16, Le(p.outerSlots, 8), done);
    done := done + Le(p.outerSlots, 8);
    Fill(buf, 24, Le(p.hiddenStart, 8), done);
    done := done + Le(p.hiddenStart, 8);
    Fill(buf, 32, Le(p.rootSlot, 8), done);
    done := done + Le(p.rootSlot, 8);
    Fill(buf, 40, Le(p.createdAt, 8), done);
    done := done + Le(p.createdAt, 8);
    Fill(buf, 48, p.volumeLabel, done);
    done := done + p.volumeLabel;
    Fill(buf, 112, p.containerId, done);
    done := done + p.containerId;
    assert done == BodyFields(p);
    body := buf[..];
  }

  /** How many random bytes a header takes. */
  function HeaderCoins(c: CipherAlgorithm): nat {
    SALT_LEN + NonceSectionLen(c)
  }

  /** A header whose salt and nonces were drawn from position `at` of the generator's stream on. */
  ghost predicate HeaderFrom(s: Suite, k: seq<byte>, isHidden: bool, p: HeaderPayload, raw: seq<byte>, at: nat) {
    && p.WellFormed()
    && HeaderWith(s, k, isHidden, p, raw, s.Coins(at, SALT_LEN), s.Coins(at + SALT_LEN, NonceSectionLen(p.cipher)))
  }

  method EncodeHeader(s: Suite, p: HeaderPayload, k: seq<byte>, isHidden: bool, at: nat) returns (raw: seq<byte>)
    requires Ideal(s) && p.WellFormed()
    ensures HeaderFrom(s, k, isHidden, p, raw, at)
    ensures IsHeader(s, k, isHidden, p, raw) && |raw| == HEADER_SIZE
  {
    var buf := new byte[HEADER_SIZE](_ => 0);
    assert buf[..] == [] + Zeros(buf.Length);
    var salt := s.Coins(at, SALT_LEN);
    Fill(buf, 0, salt, []);
    assert [] + salt == salt;
    Fill(buf, 64, PlainFields(p), salt);
    var body := EncodeBody(p);
    var enc := EncryptBlock(s, k, p.cipher, Aad(isHidden), body, at + SALT_LEN);
    Fill(buf, BODY_OFFSET, enc, salt + PlainFields(p));
    raw := buf[..];
    assert raw == salt + PlainFields(p) + enc;
    assert HeaderWith(s, k, isHidden, p, raw, salt, s.Coins(at + SALT_LEN, NonceSectionLen(p.cipher)));
  }

  // ── Decoding ──────────────────────────────────────────────────────────────

  /** The fields of a decrypted body, with the plaintext fields taken from the raw header. */
  function Parsed(raw: seq<byte>, c: CipherAlgorithm, body: seq<byte>): HeaderPayload
    requires |raw| == HEADER_SIZE && |body| >= BODY_FIELDS
  {
    HeaderPayload(c, raw[65], raw[66], raw[67], FromLe(body[16..24]), FromLe(body[24..32]), FromLe(body[32..40]),
                  FromLe(body[40..48]), body[48..112], body[112..128])
  }

  function Decoded(s: Suite, raw: seq<byte>, k: seq<byte>, c: CipherAlgorithm,
                   isHidden: bool): Result<HeaderPayload, VnmError>
    requires |raw| == HEADER_SIZE
  {
    var body := OpenBlock(s, k, c, Aad(isHidden), raw[BODY_OFFSET..]);
    if body.Err? then Err(AuthenticationFailed)
    else if |body.value| < BODY_FIELDS then Err(InvalidFormat)
    else if body.value[..4] != HEADER_MAGIC then Err(AuthenticationFailed)
    else Ok(Parsed(raw, c, body.value))
  }

  method DecodeHeader(s: Suite, raw: seq<byte>, k: seq<byte>, c: CipherAlgorithm, isHidden: bool)
    returns (r: Result<HeaderPayload, VnmError>)
    requires Ideal(s) && |raw| == HEADER_SIZE
    ensures r == Decoded(s, raw, k, c, isHidden)
  {
    hide OpenBlock;
    var kdfProfile, numPw, numKey := raw[65], raw[66], raw[67];
    var size := VnmbOverhead(c) + BodyLen(c);
    assert raw[BODY_OFFSET..BODY_OFFSET + size] == raw[BODY_OFFSET..];
    var body := DecryptBlock(s, k, c, Aad(isHidden), raw[BODY_OFFSET..BODY_OFFSET + size]);
    if body.Err? { return Err(AuthenticationFailed); }
    var b := body.value;
    BodyOpensFull(s, k, c, Aad(isHidden), raw[BODY_OFFSET..]);
    if |b| < 112 { return Err(InvalidFormat); }
    if b[..4] != HEADER_MAGIC { return Err(AuthenticationFailed); }
    r := Ok(HeaderPayload(c, kdfProfile, numPw, numKey, FromLe(b[16..24]), FromLe(b[24..32]), FromLe(b[32..40]),
                          FromLe(b[40..48]), b[48..112], b[112..128]));
  }

  /** A body that opens has the full length of its cipher, so no field is ever cut short. */
  lemma BodyOpensFull(s: Suite, k: seq<byte>, c: CipherAlgorithm, aad: seq<byte>, enc: seq<byte>)
    requires Ideal(s) && |enc| == BODY_AVAILABLE
    ensures OpenBlock(s, k, c, aad, enc).Ok? ==> |OpenBlock(s, k, c, aad, enc).value| == BodyLen(c)
  {
    var r := OpenBlock(s, k, c, aad, enc);
    if r.Ok? {
      OpenBlockIff(s, k, c, aad, enc, r.value);
      SealedLength(s, k, c, aad, NoncesOf(c, enc), r.value);
    }
  }

  /** A header that decodes can be encoded again. */
  lemma DecodedWellFormed(s: Suite, raw: seq<byte>, k: seq<byte>, c: CipherAlgorithm, isHidden: bool)
    requires |raw| == HEADER_SIZE && Decoded(s, raw, k, c, isHidden).Ok?
    ensures Decoded(s, raw, k, c, isHidden).value.WellFormed() && Decoded(s, raw, k, c, isHidden).value.cipher == c
  {
    hide OpenBlock;
    var body := OpenBlock(s, k, c, Aad(isHidden), raw[BODY_OFFSET..]).value;
    Pow256Values();
    FromLeBound(body[16..24]);
    FromLeBound(body[24..32]);
    FromLeBound(body[32..40]);
    FromLeBound(body[40..48]);
  }

  /** A piece of a concatenation. */
  lemma PieceAt(pre: seq<byte>, piece: seq<byte>, rest: seq<byte>)
    ensures (pre + piece + rest)[|pre|..|pre| + |piece|] == piece
  {
  }

  lemma FieldsAt(p: HeaderPayload)
    requires p.WellFormed()
    ensures var b := Body(p);
            && b[..4] == HEADER_MAGIC && b[16..24] == Le(p.outerSlots, 8) && b[24..32] == Le(p.hiddenStart, 8)
            && b[32..40] == Le(p.rootSlot, 8) && b[40..48] == Le(p.createdAt, 8)
            && b[48..112] == p.volumeLabel && b[112..128] == p.containerId
  {
    var b := Body(p);
    var f0 := HEADER_MAGIC + Le(FORMAT_VERSION, 4) + Le(DATA_AREA_OFFSET, 8);
    var f1 := f0 + Le(p.outerSlots, 8);
    var f2 := f1 + Le(p.hiddenStart, 8);
    var f3 := f2 + Le(p.rootSlot, 8);
    var f4 := f3 + Le(p.createdAt, 8);
    var f5 := f4 + p.volumeLabel;
    var f6 := f5 + p.containerId;
    assert f6 == BodyFields(p);
    assert b == f1 + b[24..] && b == f2 + b[32..] && b == f3 + b[40..];
    assert b == f4 + b[48..] && b == f5 + b[112..] && b == f6 + b[128..];
    PieceAt(f0, Le(p.outerSlots, 8), b[24..]);
    PieceAt(f1, Le(p.hiddenStart, 8), b[32..]);
    PieceAt(f2, Le(p.rootSlot, 8), b[40..]);
    PieceAt(f3, Le(p.createdAt, 8), b[48..]);
    PieceAt(f4, p.volumeLabel, b[112..]);
    PieceAt(f5, p.containerId, b[128..]);
  }

  /** Round trip: every field comes back, within 512 bytes, for every cipher. */
  lemma HeaderRoundTrip(s: Suite, k: seq<byte>, isHidden: bool, p: HeaderPayload, raw: seq<byte>)
    requires Ideal(s) && IsHeader(s, k, isHidden, p, raw)
    ensures |raw| == HEADER_SIZE && Decoded(s, raw, k, p.cipher, isHidden) == Ok(p)
  {
    hide OpenBlock;
    hide Sealed;
    hide Body;
    var salt, nonces :| HeaderWith(s, k, isHidden, p, raw, salt, nonces);
    var enc := Sealed(s, k, p.cipher, Aad(isHidden), nonces, Body(p));
    SealedLength(s, k, p.cipher, Aad(isHidden), nonces, Body(p));
    SealedOpens(s, k, p.cipher, Aad(isHidden), nonces, Body(p));
    assert raw[BODY_OFFSET..] == enc;
    assert raw[65] == p.kdfProfile && raw[66] == p.numPasswordSlots && raw[67] == p.numKeySlots;
    FieldsAt(p);
    Le64RoundTrip(p.outerSlots);
    Le64RoundTrip(p.hiddenStart);
    Le64RoundTrip(p.rootSlot);
    Le64RoundTrip(p.createdAt);
  }

  /** Only a body sealed under this key and cipher decodes, and its fields are the sealed ones. */
  lemma DecodedIsAuthentic(s: Suite, raw: seq<byte>, k: seq<byte>, c: CipherAlgorithm, isHidden: bool)
    requires Ideal(s) && |raw| == HEADER_SIZE && Decoded(s, raw, k, c, isHidden).Ok?
    ensures exists body, nonces :: |nonces| == NonceSectionLen(c) && |body| == BodyLen(c)
              && raw[BODY_OFFSET..] == Sealed(s, k, c, Aad(isHidden), nonces, body)
              && Decoded(s, raw, k, c, isHidden) == Ok(Parsed(raw, c, body))
  {
    hide Sealed;
    var enc := raw[BODY_OFFSET..];
    var body := OpenBlock(s, k, c, Aad(isHidden), enc).value;
    OpenBlockIff(s, k, c, Aad(isHidden), enc, body);
    BodyOpensFull(s, k, c, Aad(isHidden), enc);
    assert |NoncesOf(c, enc)| == NonceSectionLen(c) && enc == Sealed(s, k, c, Aad(isHidden), NoncesOf(c, enc), body);
  }

  /**
   The salt and the plaintext counts are not authenticated: replacing them leaves a header that
   decodes, with the replaced counts and every other field unchanged.
   */
  lemma PlaintextIsUnbound(s: Suite, raw: seq<byte>, raw': seq<byte>, k: seq<byte>, c: CipherAlgorithm, isHidden: bool)
    requires |raw| == HEADER_SIZE && |raw'| == HEADER_SIZE && raw'[BODY_OFFSET..] == raw[BODY_OFFSET..]
    ensures var r := Decoded(s, raw, k, c, isHidden);
            Decoded(s, raw', k, c, isHidden) ==
              if r.Ok? then Ok(r.value.(kdfProfile := raw'[65], numPasswordSlots := raw'[66], numKeySlots := raw'[67]))
              else r
  {
    hide OpenBlock;
  }
}
