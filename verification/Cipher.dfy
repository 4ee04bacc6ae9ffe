/**
 The VNMB block envelope of vnmcore/src/crypto/cipher.rs over ideal authenticated ciphers.

 A block is  magic(4) || version(4) || nonces || ciphertext || tags.  `Sealed` is the format;
 the encrypting methods build it, and a block opens to p exactly when it is a sealing of p.
 */
module Cipher {
  import opened Wrappers
  import opened Bytes

  datatype CipherAlgorithm = XChaCha20Poly1305 | DeoxysII256 | Serpent256 | Triple

  /** Output of an in-place encryption with a detached tag. */
  datatype Detached = Detached(body: seq<byte>, tag: seq<byte>)

  /** One authenticated cipher: (key, nonce, aad, text), and (key, nonce, aad, body, tag) back. */
  datatype Aead = Aead(
    encrypt: (seq<byte>, seq<byte>, seq<byte>, seq<byte>) -> Detached,
    decrypt: (seq<byte>, seq<byte>, seq<byte>, seq<byte>, seq<byte>) -> Option<seq<byte>>)

  /**
   The primitives the container uses: three ciphers, the BLAKE3 key derivation, and the stream of bytes that
   the random generator yields.
   */
  datatype Suite = Suite(xchacha: Aead, deoxys: Aead, serpent: Aead,
                         deriveKey: (string, seq<byte>) -> seq<byte>, random: nat -> byte)
  {
    /** A buffer of n random bytes, drawn when `at` bytes of the stream have been drawn before. */
    function Coins(at: nat, n: nat): (c: seq<byte>)
      ensures |c| == n
    {
      seq<byte>(n, i requires 0 <= i => random(at + i))
    }

    /** Buffers drawn one after the other are one stretch of the stream. */
    lemma CoinsMeet(at: nat, m: nat, n: nat)
      ensures Coins(at, m) + Coins(at + m, n) == Coins(at, m + n)
    {
    }
  }

  /** Decryption undoes encryption and accepts nothing else. */
  ghost predicate IdealAead(a: Aead) {
    && (forall k, n, d, p :: |a.encrypt(k, n, d, p).body| == |p| && |a.encrypt(k, n, d, p).tag| == 16)
    && (forall k, n, d, b, t, p ::
          a.decrypt(k, n, d, b, t) == Some(p) <==> a.encrypt(k, n, d, p) == Detached(b, t))
  }

  ghost predicate Ideal(s: Suite) {
    && IdealAead(s.xchacha) && IdealAead(s.deoxys) && IdealAead(s.serpent)
    && (forall c, m :: |s.deriveKey(c, m)| == 32)
  }

  const MAGIC: seq<byte> := [0x56, 0x4E, 0x4D, 0x42]
  const VERSION: nat := 1
  const NONCE_OFFSET: nat := 8
  const N1: nat := 24
  const N2: nat := 15
  const N3: nat := 16
  const TRIPLE_NONCE_LEN: nat := N1 + N2 + N3

  function NonceSectionLen(c: CipherAlgorithm): nat {
    match c
    case XChaCha20Poly1305 => N1
    case DeoxysII256 => N2
    case Serpent256 => N3
    case Triple => TRIPLE_NONCE_LEN
  }

  function TagsLen(c: CipherAlgorithm): nat {
    if c.Triple? then 48 else 16
  }

  function VnmbOverhead(c: CipherAlgorithm): nat {
    NONCE_OFFSET + NonceSectionLen(c) + TagsLen(c)
  }

  /** The cipher behind one of the three single modes. */
  function Single(s: Suite, c: CipherAlgorithm): Aead
    requires !c.Triple?
  {
    match c
    case XChaCha20Poly1305 => s.xchacha
    case DeoxysII256 => s.deoxys
    case Serpent256 => s.serpent
  }

  function Key1(s: Suite, key: seq<byte>): seq<byte> { s.deriveKey("venom:triple:xchacha20", key) }
  function Key2(s: Suite, key: seq<byte>): seq<byte> { s.deriveKey("venom:triple:deoxys", key) }
  function Key3(s: Suite, key: seq<byte>): seq<byte> { s.deriveKey("venom:triple:serpent", key) }

  /** Body followed by its tag: one encryption layer. */
  function Layer(a: Aead, key: seq<byte>, nonce: seq<byte>, aad: seq<byte>, text: seq<byte>): seq<byte> {
    var d := a.encrypt(key, nonce, aad, text);
    d.body + d.tag
  }

  /** What follows the nonces: ciphertext and tags, one layer or three. */
  function Payload(s: Suite, key: seq<byte>, c: CipherAlgorithm, aad: seq<byte>, nonces: seq<byte>,
                   text: seq<byte>): seq<byte>
    requires |nonces| == NonceSectionLen(c)
  {
    if c.Triple? then
      Layer(s.serpent, Key3(s, key), nonces[N1 + N2..], aad,
        Layer(s.deoxys, Key2(s, key), nonces[N1..N1 + N2], aad,
          Layer(s.xchacha, Key1(s, key), nonces[..N1], aad, text)))
    else
      Layer(Single(s, c), key, nonces, aad, text)
  }

  /** The block format: what sealing `text` under the given nonce section produces. */
  function Sealed(s: Suite, key: seq<byte>, c: CipherAlgorithm, aad: seq<byte>, nonces: seq<byte>,
                  text: seq<byte>): seq<byte>
    requires |nonces| == NonceSectionLen(c)
  {
    MAGIC + Le(VERSION, 4) + nonces + Payload(s, key, c, aad, nonces, text)
  }

  /** A sealed block is exactly the overhead longer than its plaintext. */
  lemma SealedLength(s: Suite, key: seq<byte>, c: CipherAlgorithm, aad: seq<byte>, nonces: seq<byte>, text: seq<byte>)
    requires Ideal(s) && |nonces| == NonceSectionLen(c)
    ensures |Sealed(s, key, c, aad, nonces, text)| == |text| + VnmbOverhead(c)
  {
    if c.Triple? {
      LayerLength(s.xchacha, Key1(s, key), nonces[..N1], aad, text);
      var l1 := Layer(s.xchacha, Key1(s, key), nonces[..N1], aad, text);
      LayerLength(s.deoxys, Key2(s, key), nonces[N1..N1 + N2], aad, l1);
      var l2 := Layer(s.deoxys, Key2(s, key), nonces[N1..N1 + N2], aad, l1);
      LayerLength(s.serpent, Key3(s, key), nonces[N1 + N2..], aad, l2);
    } else {
      LayerLength(Single(s, c), key, nonces, aad, text);
    }
  }

  lemma LayerLength(a: Aead, key: seq<byte>, nonce: seq<byte>, aad: seq<byte>, text: seq<byte>)
    requires IdealAead(a)
    ensures |Layer(a, key, nonce, aad, text)| == |text| + 16
  {
    var d := a.encrypt(key, nonce, aad, text);
    assert |d.body| == |text| && |d.tag| == 16;
  }

  // ── Encryption ────────────────────────────────────────────────────────────

  /** Every nonce is drawn from the generator, from position `at` of its stream on. */
  method EncryptBlock(s: Suite, key: seq<byte>, c: CipherAlgorithm, aad: seq<byte>, text: seq<byte>, at: nat)
    returns (block: seq<byte>)
    requires Ideal(s)
    ensures block == Sealed(s, key, c, aad, s.Coins(at, NonceSectionLen(c)), text)
    ensures |block| == |text| + VnmbOverhead(c)
  {
    if c.Triple? {
      block := EncryptTriple(s, key, aad, text, at);
    } else {
      block := EncryptSingle(s, key, c, aad, text, at);
    }
    SealedLength(s, key, c, aad, s.Coins(at, NonceSectionLen(c)), text);
  }

  method EncryptSingle(s: Suite, key: seq<byte>, c: CipherAlgorithm, aad: seq<byte>, text: seq<byte>, at: nat)
    returns (buf: seq<byte>)
    requires Ideal(s) && !c.Triple?
    ensures buf == Sealed(s, key, c, aad, s.Coins(at, NonceSectionLen(c)), text)
  {
    var nlen := NonceSectionLen(c);
    var hlen := NONCE_OFFSET + nlen;
    var nonce := s.Coins(at, nlen);
    buf := MAGIC;
    buf := buf + Le(VERSION, 4);
    buf := buf + nonce;
    buf := buf + text;
    var out := Single(s, c).encrypt(key, nonce, aad, buf[hlen..]);
    assert buf[hlen..] == text;
    buf := buf[..hlen] + out.body;
    buf := buf + out.tag;
  }

  method EncryptTriple(s: Suite, key: seq<byte>, aad: seq<byte>, text: seq<byte>, at: nat)
    returns (buf: seq<byte>)
    requires Ideal(s)
    ensures buf == Sealed(s, key, Triple, aad, s.Coins(at, NonceSectionLen(Triple)), text)
  {
    var nonce1 := s.Coins(at, N1);
    var nonce2 := s.Coins(at + N1, N2);
    var nonce3 := s.Coins(at + N1 + N2, N3);
    ghost var nonces := nonce1 + nonce2 + nonce3;
    s.CoinsMeet(at, N1, N2);
    s.CoinsMeet(at, N1 + N2, N3);
    assert nonces[..N1] == nonce1 && nonces[N1..N1 + N2] == nonce2 && nonces[N1 + N2..] == nonce3;

    var layer := text;
    var d := s.xchacha.encrypt(Key1(s, key), nonce1, aad, layer);
    layer := d.body + d.tag;
    d := s.deoxys.encrypt(Key2(s, key), nonce2, aad, layer);
    layer := d.body + d.tag;
    d := s.serpent.encrypt(Key3(s, key), nonce3, aad, layer);
    layer := d.body + d.tag;

    buf := MAGIC;
    buf := buf + Le(VERSION, 4);
    buf := buf + nonce1;
    buf := buf + nonce2;
    buf := buf + nonce3;
    buf := buf + layer;
    assert buf == MAGIC + Le(VERSION, 4) + nonces + layer;
  }

  // ── Decryption ────────────────────────────────────────────────────────────

  /** Strip one layer: the last 16 bytes are the tag. */
  function Unlayer(a: Aead, key: seq<byte>, nonce: seq<byte>, aad: seq<byte>, data: seq<byte>): Option<seq<byte>>
    requires |data| >= 16
  {
    a.decrypt(key, nonce, aad, data[..|data| - 16], data[|data| - 16..])
  }

  /** A layer opens to `text` exactly when it is the layer made from `text`. */
  lemma UnlayerIff(a: Aead, key: seq<byte>, nonce: seq<byte>, aad: seq<byte>, data: seq<byte>, text: seq<byte>)
    requires IdealAead(a) && |data| >= 16
    ensures Unlayer(a, key, nonce, aad, data) == Some(text) <==> data == Layer(a, key, nonce, aad, text)
  {
    var d := a.encrypt(key, nonce, aad, text);
    var b, t := data[..|data| - 16], data[|data| - 16..];
    assert data == b + t;
    assert a.decrypt(key, nonce, aad, b, t) == Some(text) <==> d == Detached(b, t);
    assert |d.tag| == 16;
    if data == d.body + d.tag {
      assert b == d.body && t == d.tag;
    }
  }

  /** The checks both decryptors make before any key is used. */
  function CheckPrefix(data: seq<byte>, minLen: nat): Result<(), VnmError>
    requires minLen >= 8
  {
    if |data| < minLen then Err(AuthenticationFailed)
    else if data[..4] != MAGIC then Err(AuthenticationFailed)
    else if FromLe(data[4..8]) != VERSION then Err(InvalidFormat)
    else Ok(())
  }

  function MinLen(c: CipherAlgorithm): nat {
    VnmbOverhead(c) + if c.Triple? then 1 else 0
  }

  function OpenBlock(s: Suite, key: seq<byte>, c: CipherAlgorithm, aad: seq<byte>,
                     data: seq<byte>): Result<seq<byte>, VnmError> {
    var pre := CheckPrefix(data, MinLen(c));
    if pre.Err? then Err(pre.error) else
    var plain :=
      if c.Triple? then OpenTriple(s, key, aad, data)
      else
        var hlen := NONCE_OFFSET + NonceSectionLen(c);
        Unlayer(Single(s, c), key, data[NONCE_OFFSET..hlen], aad, data[hlen..]);
    if plain.Some? then Ok(plain.value) else Err(AuthenticationFailed)
  }

  function OpenTriple(s: Suite, key: seq<byte>, aad: seq<byte>, data: seq<byte>): Option<seq<byte>>
    requires |data| >= MinLen(Triple)
  {
    var hlen := NONCE_OFFSET + TRIPLE_NONCE_LEN;
    var l2 := Unlayer(s.serpent, Key3(s, key), data[NONCE_OFFSET + N1 + N2..hlen], aad, data[hlen..]);
    if l2.None? || |l2.value| < 16 then None else
    var l1 := Unlayer(s.deoxys, Key2(s, key), data[NONCE_OFFSET + N1..NONCE_OFFSET + N1 + N2], aad, l2.value);
    if l1.None? || |l1.value| < 16 then None else
    Unlayer(s.xchacha, Key1(s, key), data[NONCE_OFFSET..NONCE_OFFSET + N1], aad, l1.value)
  }

  /** The nonce section of a block. */
  function NoncesOf(c: CipherAlgorithm, data: seq<byte>): seq<byte>
    requires |data| >= MinLen(c)
  {
    data[NONCE_OFFSET..NONCE_OFFSET + NonceSectionLen(c)]
  }

  lemma VersionBytes(v: seq<byte>)
    requires |v| == 4
    ensures FromLe(v) == VERSION <==> v == Le(VERSION, 4)
  {
    Le32RoundTrip(VERSION);
    assert FromLe(v) == v[0] + 256 * FromLe(v[1..]);
    assert FromLe(v[1..]) == v[1] + 256 * FromLe(v[2..]);
    assert v[1..][1..] == v[2..] && v[2..][1..] == v[3..] && v[3..][1..] == [];
    assert FromLe(v[2..]) == v[2] + 256 * FromLe(v[3..]);
    assert FromLe(v[3..]) == v[3];
    assert Le(1, 4) == [1] + Le(0, 3) && Le(0, 3) == [0] + Le(0, 2) && Le(0, 2) == [0] + Le(0, 1) && Le(0, 1) == [0];
  }

  /** Three layers open to `text` exactly when they are the layers made from `text`. */
  lemma OpenTripleIff(s: Suite, key: seq<byte>, aad: seq<byte>, data: seq<byte>, text: seq<byte>)
    requires Ideal(s) && |data| >= MinLen(Triple)
    ensures OpenTriple(s, key, aad, data) == Some(text) <==>
            data[NONCE_OFFSET + TRIPLE_NONCE_LEN..] == Payload(s, key, Triple, aad, NoncesOf(Triple, data), text)
  {
    var hlen := NONCE_OFFSET + TRIPLE_NONCE_LEN;
    var n := NoncesOf(Triple, data);
    var n1, n2, n3 := n[..N1], n[N1..N1 + N2], n[N1 + N2..];
    assert data[NONCE_OFFSET..NONCE_OFFSET + N1] == n1;
    assert data[NONCE_OFFSET + N1..NONCE_OFFSET + N1 + N2] == n2;
    assert data[NONCE_OFFSET + N1 + N2..hlen] == n3;
    var t1 := Layer(s.xchacha, Key1(s, key), n1, aad, text);
    var t2 := Layer(s.deoxys, Key2(s, key), n2, aad, t1);
    LayerLength(s.xchacha, Key1(s, key), n1, aad, text);
    LayerLength(s.deoxys, Key2(s, key), n2, aad, t1);
    var l2 := Unlayer(s.serpent, Key3(s, key), n3, aad, data[hlen..]);
    UnlayerIff(s.serpent, Key3(s, key), n3, aad, data[hlen..], t2);
    if l2.Some? {
      UnlayerIff(s.serpent, Key3(s, key), n3, aad, data[hlen..], l2.value);
      if |l2.value| >= 16 {
        UnlayerIff(s.deoxys, Key2(s, key), n2, aad, l2.value, t1);
        var l1 := Unlayer(s.deoxys, Key2(s, key), n2, aad, l2.value);
        if l1.Some? && |l1.value| >= 16 {
          UnlayerIff(s.deoxys, Key2(s, key), n2, aad, l2.value, l1.value);
          UnlayerIff(s.xchacha, Key1(s, key), n1, aad, l1.value, text);
        }
      }
    }
  }

  /** The fixed fields and the rest of a block, compared part by part. */
  lemma SplitBlock(data: seq<byte>, nlen: nat, payload: seq<byte>)
    requires |data| >= NONCE_OFFSET + nlen
    ensures data == MAGIC + Le(VERSION, 4) + data[NONCE_OFFSET..NONCE_OFFSET + nlen] + payload <==>
            data[..4] == MAGIC && data[4..8] == Le(VERSION, 4) && data[NONCE_OFFSET + nlen..] == payload
  {
    var h := NONCE_OFFSET + nlen;
    assert data == data[..4] + data[4..8] + data[NONCE_OFFSET..h] + data[h..];
    var w := MAGIC + Le(VERSION, 4) + data[NONCE_OFFSET..h] + payload;
    assert w[..4] == MAGIC && w[4..8] == Le(VERSION, 4) && w[h..] == payload;
  }

  /** A block opens to `text` exactly when it is a sealing of `text` (non-empty for Triple). */
  lemma OpenBlockIff(s: Suite, key: seq<byte>, c: CipherAlgorithm, aad: seq<byte>, data: seq<byte>, text: seq<byte>)
    requires Ideal(s)
    ensures OpenBlock(s, key, c, aad, data) == Ok(text) <==>
            && (c.Triple? ==> text != [])
            && |data| >= MinLen(c)
            && data == Sealed(s, key, c, aad, NoncesOf(c, data), text)
  {
    if |data| >= MinLen(c) {
      var n := NoncesOf(c, data);
      VersionBytes(data[4..8]);
      SealedLength(s, key, c, aad, n, text);
      SplitBlock(data, NonceSectionLen(c), Payload(s, key, c, aad, n, text));
      if c.Triple? {
        OpenTripleIff(s, key, aad, data, text);
      } else {
        UnlayerIff(Single(s, c), key, n, aad, data[NONCE_OFFSET + NonceSectionLen(c)..], text);
      }
    }
  }

  /** Round trip: whatever the nonces, the sealed block opens to its text. */
  lemma SealedOpens(s: Suite, key: seq<byte>, c: CipherAlgorithm, aad: seq<byte>, nonces: seq<byte>, text: seq<byte>)
    requires Ideal(s) && |nonces| == NonceSectionLen(c)
    ensures OpenBlock(s, key, c, aad, Sealed(s, key, c, aad, nonces, text)) ==
            if c.Triple? && text == [] then Err(AuthenticationFailed) else Ok(text)
  {
    var data := Sealed(s, key, c, aad, nonces, text);
    SealedLength(s, key, c, aad, nonces, text);
    if !(c.Triple? && text == []) {
      assert NoncesOf(c, data) == nonces;
      OpenBlockIff(s, key, c, aad, data, text);
    }
  }

  method DecryptBlock(s: Suite, key: seq<byte>, c: CipherAlgorithm, aad: seq<byte>, data: seq<byte>)
    returns (r: Result<seq<byte>, VnmError>)
    requires Ideal(s)
    ensures r == OpenBlock(s, key, c, aad, data)
  {
    if c.Triple? {
      r := DecryptTriple(s, key, aad, data);
    } else {
      r := DecryptSingle(s, key, c, aad, data);
    }
  }

  method DecryptSingle(s: Suite, key: seq<byte>, c: CipherAlgorithm, aad: seq<byte>, data: seq<byte>)
    returns (r: Result<seq<byte>, VnmError>)
    requires Ideal(s) && !c.Triple?
    ensures r == OpenBlock(s, key, c, aad, data)
  {
    var hlen := NONCE_OFFSET + NonceSectionLen(c);
    if |data| < hlen + 16 { return Err(AuthenticationFailed); }
    if data[..4] != MAGIC { return Err(AuthenticationFailed); }
    if FromLe(data[4..8]) != VERSION { return Err(InvalidFormat); }
    var nonce := data[NONCE_OFFSET..hlen];
    var ctWithTag := data[hlen..];
    var tagStart := |ctWithTag| - 16;
    var plain := Single(s, c).decrypt(key, nonce, aad, ctWithTag[..tagStart], ctWithTag[tagStart..]);
    r := if plain.Some? then Ok(plain.value) else Err(AuthenticationFailed);
  }

  method DecryptTriple(s: Suite, key: seq<byte>, aad: seq<byte>, data: seq<byte>)
    returns (r: Result<seq<byte>, VnmError>)
    requires Ideal(s)
    ensures r == OpenBlock(s, key, Triple, aad, data)
  {
    var hlen := NONCE_OFFSET + TRIPLE_NONCE_LEN;
    if |data| < hlen + 48 + 1 { return Err(AuthenticationFailed); }
    if data[..4] != MAGIC { return Err(AuthenticationFailed); }
    if FromLe(data[4..8]) != VERSION { return Err(InvalidFormat); }
    var nonce1, nonce2, nonce3 := data[8..8 + N1], data[8 + N1..8 + N1 + N2], data[8 + N1 + N2..hlen];

    var layer2 := data[hlen..];
    var n0 := |layer2|;
    var tagStart := |layer2| - 16;
    var p := s.serpent.decrypt(Key3(s, key), nonce3, aad, layer2[..tagStart], layer2[tagStart..]);
    if p.None? { return Err(AuthenticationFailed); }
    UnlayerIff(s.serpent, Key3(s, key), nonce3, aad, layer2, p.value);
    LayerLength(s.serpent, Key3(s, key), nonce3, aad, p.value);
    layer2 := p.value;

    tagStart := |layer2| - 16;
    p := s.deoxys.decrypt(Key2(s, key), nonce2, aad, layer2[..tagStart], layer2[tagStart..]);
    if p.None? { return Err(AuthenticationFailed); }
    UnlayerIff(s.deoxys, Key2(s, key), nonce2, aad, layer2, p.value);
    LayerLength(s.deoxys, Key2(s, key), nonce2, aad, p.value);
    layer2 := p.value;

    tagStart := |layer2| - 16;
    p := s.xchacha.decrypt(Key1(s, key), nonce1, aad, layer2[..tagStart], layer2[tagStart..]);
    if p.None? { return Err(AuthenticationFailed); }
    r := Ok(p.value);
  }

  /** Decrypt a 32-byte secret straight into `out`; what a failure leaves in `out` is not promised. */
  method DecryptBlockInto32(s: Suite, key: seq<byte>, c: CipherAlgorithm, aad: seq<byte>, data: seq<byte>,
                            out: array<byte>)
    returns (ok: bool)
    requires Ideal(s) && out.Length == 32
    modifies out
    ensures ok <==> OpenBlock(s, key, c, aad, data).Ok? && |OpenBlock(s, key, c, aad, data).value| == 32
    ensures ok ==> out[..] == OpenBlock(s, key, c, aad, data).value
  {
    if c.Triple? {
      var plain := DecryptTriple(s, key, aad, data);
      if plain.Err? || |plain.value| != 32 { return false; }
      CopyInto(out, plain.value);
      return true;
    }
    var hlen := NONCE_OFFSET + NonceSectionLen(c);
    SingleOpensTo32(s, key, c, aad, data);
    if |data| != hlen + 32 + 16 { return false; }
    if data[..4] != MAGIC { return false; }
    if FromLe(data[4..8]) != VERSION { return false; }
    var nonce := data[NONCE_OFFSET..hlen];
    CopyInto(out, data[hlen..hlen + 32]);
    assert data[hlen..][..32] == data[hlen..hlen + 32] && data[hlen..][32..] == data[hlen + 32..];
    var plain := Single(s, c).decrypt(key, nonce, aad, out[..], data[hlen + 32..]);
    if plain.None? { return false; }
    CopyInto(out, plain.value);
    ok := true;
  }

  /** A single-cipher block that opens to 32 bytes has the one length the caller checks for. */
  lemma SingleOpensTo32(s: Suite, key: seq<byte>, c: CipherAlgorithm, aad: seq<byte>, data: seq<byte>)
    requires Ideal(s) && !c.Triple?
    ensures OpenBlock(s, key, c, aad, data).Ok? ==>
              |OpenBlock(s, key, c, aad, data).value| == |data| - VnmbOverhead(c)
  {
    var r := OpenBlock(s, key, c, aad, data);
    if r.Ok? {
      OpenBlockIff(s, key, c, aad, data, r.value);
      SealedLength(s, key, c, aad, NoncesOf(c, data), r.value);
    }
  }

  method CopyInto(out: array<byte>, src: seq<byte>)
    requires out.Length == |src|
    modifies out
    ensures out[..] == src
  {
    forall i | 0 <= i < |src| { out[i] := src[i]; }
  }

  // ── The laws are consistent ───────────────────────────────────────────────

  function ToyEncrypt(k: seq<byte>, n: seq<byte>, d: seq<byte>, p: seq<byte>): Detached { Detached(p, Zeros(16)) }

  function ToyDecrypt(k: seq<byte>, n: seq<byte>, d: seq<byte>, b: seq<byte>, t: seq<byte>): Option<seq<byte>> {
    if t == Zeros(16) then Some(b) else None
  }

  function ToyDerive(c: string, m: seq<byte>): seq<byte> { Zeros(32) }

  function ToyRandom(i: nat): byte { 0 }

  function ToySuite(): Suite {
    var a := Aead(ToyEncrypt, ToyDecrypt);
    Suite(a, a, a, ToyDerive, ToyRandom)
  }

  lemma IdealIsConsistent()
    ensures Ideal(ToySuite())
  {
    var a := Aead(ToyEncrypt, ToyDecrypt);
    assert IdealAead(a);
  }
}
