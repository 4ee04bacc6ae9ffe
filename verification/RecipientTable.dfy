/**
 The recipient table of a container file (vnmcore/src/fs/container.rs): adding and removing
 recipients with compaction, two header copies kept identical, and finding the master key again.
 */
module RecipientTable {
  import opened Wrappers
  import opened Bytes
  import opened Cipher
  import opened Layout
  import opened Header
  import opened Recipients

  /** What a mounted container knows. */
  datatype Secrets = Secrets(suite: Suite, keying: Keying, master: seq<byte>, cipher: CipherAlgorithm)

  // ── Layout ────────────────────────────────────────────────────────────────

  function PwSlotOffset(i: nat): nat {
    HEADER_REGION_SIZE + i * PW_SLOT_SIZE
  }

  function KeySlotOffset(j: nat): nat {
    HEADER_REGION_SIZE + (MAX_PASSWORD_SLOTS * PW_SLOT_SIZE + j * KEY_SLOT_SIZE)
  }

  /** The bytes after the last whole data slot, as `update_slot_counts` infers them from the size. */
  function TailOf(fileSize: nat): nat {
    (if fileSize > DATA_AREA_OFFSET then fileSize - DATA_AREA_OFFSET else 0) % SLOT_SIZE
  }

  function BackupOffset(fileSize: nat): int {
    if TailOf(fileSize) == 1024 then fileSize - 1024 else fileSize - 512
  }

  /** The sizes `create` produces: whole data slots and a tail of 512 bytes, or 1024 with a hidden volume. */
  predicate LayoutOk(fileSize: nat) {
    fileSize >= DATA_AREA_OFFSET + 512 && TailOf(fileSize) in {512, 1024}
  }

  /** The modulus recovers the tail that `create` chose, hence the offset of the backup header. */
  lemma TailRecovered(slots: nat, withHidden: bool)
    ensures var tail := if withHidden then 1024 else 512;
            var size := DATA_AREA_OFFSET + slots * SLOT_SIZE + tail;
            LayoutOk(size) && TailOf(size) == tail && BackupOffset(size) == size - tail
  {
    var tail := if withHidden then 1024 else 512;
    assert (slots * SLOT_SIZE + tail) % SLOT_SIZE == tail;
  }

  /** A stretch of the file, empty when it reaches past the end. */
  function Range(b: seq<byte>, lo: nat, n: nat): seq<byte> {
    if lo + n <= |b| then b[lo..lo + n] else []
  }

  function PwSlotAt(b: seq<byte>, i: nat): seq<byte> { Range(b, PwSlotOffset(i), PW_SLOT_SIZE) }
  function KeySlotAt(b: seq<byte>, j: nat): seq<byte> { Range(b, KeySlotOffset(j), KEY_SLOT_SIZE) }
  function Primary(b: seq<byte>): seq<byte> { Range(b, 0, HEADER_SIZE) }
  function Backup(b: seq<byte>): seq<byte> {
    if BackupOffset(|b|) >= 0 then Range(b, BackupOffset(|b|), HEADER_SIZE) else []
  }

  /** Nothing changed outside these n bytes. */
  ghost predicate KeptOutside(b: seq<byte>, b': seq<byte>, off: nat, n: nat) {
    && |b'| == |b|
    && forall lo: nat, m: nat {:trigger Range(b', lo, m)} :: lo + m <= off || off + n <= lo ==>
      Range(b', lo, m) == Range(b, lo, m)
  }

  lemma WriteKeeps(b: seq<byte>, off: nat, d: seq<byte>)
    requires off + |d| <= |b|
    ensures KeptOutside(b, Overwrite(b, off, d), off, |d|) && Range(Overwrite(b, off, d), off, |d|) == d
  {
    hide Overwrite;
    var b' := Overwrite(b, off, d);
    OverwriteReads(b, off, d);
    forall lo: nat, m: nat {:trigger Range(b', lo, m)} | lo + m <= off || off + |d| <= lo
      ensures Range(b', lo, m) == Range(b, lo, m)
    {
      if lo + m <= |b| { OverwriteElsewhere(b, off, d, lo, lo + m); }
    }
  }

  /** Slots do not overlap, and lie between the header region and the data area. */
  lemma SlotsApart(i: nat, j: nat)
    ensures i < j ==>
              PwSlotOffset(i) + PW_SLOT_SIZE <= PwSlotOffset(j) && KeySlotOffset(i) + KEY_SLOT_SIZE <= KeySlotOffset(j)
    ensures i < MAX_PASSWORD_SLOTS ==>
              HEADER_REGION_SIZE <= PwSlotOffset(i) && PwSlotOffset(i) + PW_SLOT_SIZE <= KeySlotOffset(j)
    ensures j < MAX_KEY_SLOTS ==> KeySlotOffset(j) + KEY_SLOT_SIZE <= DATA_AREA_OFFSET
    ensures HEADER_REGION_SIZE <= KeySlotOffset(j)
  {
  }

  lemma BackupBounds(size: nat)
    requires LayoutOk(size)
    ensures DATA_AREA_OFFSET <= BackupOffset(size) && BackupOffset(size) + HEADER_SIZE <= size
  {
  }

  // ── The table ─────────────────────────────────────────────────────────────

  /** Both header copies and, in order, one slot for every recipient. */
  ghost predicate TableOk(x: Secrets, b: seq<byte>, meta: HeaderPayload, pw: seq<Password>, keys: seq<PublicKey>) {
    && LayoutOk(|b|)
    && HeadersOk(x, b, meta) && meta.numPasswordSlots == |pw| <= MAX_PASSWORD_SLOTS
    && meta.numKeySlots == |keys| <= MAX_KEY_SLOTS
    && PasswordsOk(x, b, pw, meta.kdfProfile) && KeysOk(x, b, keys)
  }

  ghost predicate HeadersOk(x: Secrets, b: seq<byte>, meta: HeaderPayload) {
    && meta.cipher == x.cipher && IsHeader(x.suite, x.master, false, meta, Primary(b))
    && Backup(b) == Primary(b)
  }

  /** One slot for every password, each sealed and marked with the container's KDF profile. */
  ghost predicate PasswordsOk(x: Secrets, b: seq<byte>, pw: seq<Password>, profile: byte) {
    forall i :: 0 <= i < |pw| ==> IsPasswordSlot(x.suite, x.keying, x.master, pw[i], profile, PwSlotAt(b, i))
  }

  ghost predicate KeysOk(x: Secrets, b: seq<byte>, keys: seq<PublicKey>) {
    forall j :: 0 <= j < |keys| ==> IsKeySlot(x.suite, x.keying, x.master, keys[j], x.cipher, KeySlotAt(b, j))
  }

  /** Data slots, the second header region and whatever follows the backup copy. */
  ghost predicate RestKept(b: seq<byte>, b': seq<byte>) {
    && |b'| == |b|
    && Range(b', HEADER_SIZE, HEADER_REGION_SIZE - HEADER_SIZE) ==
      Range(b, HEADER_SIZE, HEADER_REGION_SIZE - HEADER_SIZE)
    && forall lo: nat, n: nat {:trigger Range(b', lo, n)} ::
         (DATA_AREA_OFFSET <= lo && lo + n <= BackupOffset(|b|)) || BackupOffset(|b|) + HEADER_SIZE <= lo ==>
           Range(b', lo, n) == Range(b, lo, n)
  }

  /** Recipient slots from the n-th password slot on and all data slots are as the file was filled at first. */
  ghost predicate StaysRandom(fill: seq<byte>, b: seq<byte>, n: nat) {
    && |b| == |fill|
    && forall lo: nat, m: nat {:trigger Range(b, lo, m)} ::
         PwSlotOffset(n) <= lo && lo + m <= BackupOffset(|b|) ==> Range(b, lo, m) == Range(fill, lo, m)
  }

  /** Two headers written into a file that was filled at random. */
  lemma HeadersWritten(fill: seq<byte>, b1: seq<byte>, b2: seq<byte>, hdr: seq<byte>)
    requires LayoutOk(|fill|) && |hdr| == HEADER_SIZE
    requires KeptOutside(fill, b1, 0, HEADER_SIZE) && Range(b1, 0, HEADER_SIZE) == hdr
    requires BackupOffset(|fill|) >= 0 && KeptOutside(b1, b2, BackupOffset(|fill|), HEADER_SIZE)
    requires Range(b2, BackupOffset(|fill|), HEADER_SIZE) == hdr
    ensures |b2| == |fill| && Primary(b2) == hdr && Backup(b2) == hdr && StaysRandom(fill, b2, 0)
  {
    BackupBounds(|fill|);
    assert Range(b2, 0, HEADER_SIZE) == Range(b1, 0, HEADER_SIZE);
    forall lo: nat, m: nat {:trigger Range(b2, lo, m)} | PwSlotOffset(0) <= lo && lo + m <= BackupOffset(|b2|)
      ensures Range(b2, lo, m) == Range(fill, lo, m)
    {
      assert Range(b2, lo, m) == Range(b1, lo, m);
    }
  }

  lemma FirstSlotWritten(fill: seq<byte>, b: seq<byte>, b': seq<byte>)
    requires StaysRandom(fill, b, 0) && KeptOutside(b, b', PwSlotOffset(0), PW_SLOT_SIZE)
    ensures StaysRandom(fill, b', 1)
  {
    forall lo: nat, m: nat {:trigger Range(b', lo, m)} | PwSlotOffset(1) <= lo && lo + m <= BackupOffset(|b'|)
      ensures Range(b', lo, m) == Range(fill, lo, m)
    {
      assert Range(b', lo, m) == Range(b, lo, m);
    }
  }

  /** Only the two header copies changed. */
  ghost predicate OnlyHeaders(b: seq<byte>, b': seq<byte>) {
    && |b'| == |b|
    && forall lo: nat, n: nat {:trigger Range(b', lo, n)} ::
         (HEADER_SIZE <= lo && lo + n <= BackupOffset(|b|)) || BackupOffset(|b|) + HEADER_SIZE <= lo ==>
           Range(b', lo, n) == Range(b, lo, n)
  }

  /** Rewriting the headers keeps every slot. */
  lemma HeadersKeepSlots(x: Secrets, b: seq<byte>, b': seq<byte>, pw: seq<Password>, profile: byte,
                         keys: seq<PublicKey>)
    requires LayoutOk(|b|) && OnlyHeaders(b, b') && |pw| <= MAX_PASSWORD_SLOTS && |keys| <= MAX_KEY_SLOTS
    ensures PasswordsOk(x, b, pw, profile) ==> PasswordsOk(x, b', pw, profile)
    ensures KeysOk(x, b, keys) ==> KeysOk(x, b', keys)
    ensures forall i :: 0 <= i < MAX_PASSWORD_SLOTS ==> PwSlotAt(b', i) == PwSlotAt(b, i)
    ensures forall j :: 0 <= j < MAX_KEY_SLOTS ==> KeySlotAt(b', j) == KeySlotAt(b, j)
  {
    hide IsPasswordSlot;
    hide IsKeySlot;
    BackupBounds(|b|);
    forall i | 0 <= i < MAX_PASSWORD_SLOTS ensures PwSlotAt(b', i) == PwSlotAt(b, i) {
      SlotsApart(i, 0);
    }
    forall j | 0 <= j < MAX_KEY_SLOTS ensures KeySlotAt(b', j) == KeySlotAt(b, j) {
      SlotsApart(0, j);
    }
  }

  /** Writing a password slot keeps the headers, the other password slots and every key slot. */
  lemma PwSlotWritten(x: Secrets, b: seq<byte>, b': seq<byte>, pw: seq<Password>, profile: byte,
                      keys: seq<PublicKey>, new_: Password)
    requires LayoutOk(|b|) && KeptOutside(b, b', PwSlotOffset(|pw|), PW_SLOT_SIZE) && |pw| < MAX_PASSWORD_SLOTS
    requires |keys| <= MAX_KEY_SLOTS
    requires PasswordsOk(x, b, pw, profile) && KeysOk(x, b, keys)
    requires IsPasswordSlot(x.suite, x.keying, x.master, new_, profile, PwSlotAt(b', |pw|))
    ensures PasswordsOk(x, b', pw + [new_], profile) && KeysOk(x, b', keys)
    ensures Primary(b') == Primary(b) && RestKept(b, b')
  {
    hide IsPasswordSlot;
    hide IsKeySlot;
    SlotsApart(|pw|, 0);
    BackupBounds(|b|);
    forall i | 0 <= i < |pw| ensures PwSlotAt(b', i) == PwSlotAt(b, i) {
      SlotsApart(i, |pw|);
    }
    forall j | 0 <= j < |keys| ensures KeySlotAt(b', j) == KeySlotAt(b, j) {
      SlotsApart(|pw|, j);
    }
  }

  class ContainerFile {
    const x: Secrets
    var bytes: seq<byte>
    /** How many bytes of the random generator's stream have been drawn. */
    var drawn: nat
    ghost var meta: HeaderPayload
    ghost var pw: seq<Password>
    ghost var keys: seq<PublicKey>

    ghost predicate Valid()
      reads this
    {
      Ideal(x.suite) && LawfulKeying(x.keying) && |x.master| == 32 && TableOk(x, bytes, meta, pw, keys)
    }

    /**
     The outer headers and first recipient of `create`, over a file of random bytes with this many
     data slots, drawn from position `at` of the generator's stream on. An empty password means that no slot
     is written.
     */
    constructor Create(x: Secrets, slots: nat, withHidden: bool, payload: HeaderPayload, outerPassword: Password,
                       at: nat)
      requires Ideal(x.suite) && LawfulKeying(x.keying) && |x.master| == 32
      requires payload.WellFormed() && payload.cipher == x.cipher
      requires payload.numPasswordSlots == (if outerPassword != [] then 1 else 0) && payload.numKeySlots == 0
      ensures Valid() && this.x == x && meta == payload
      ensures pw == (if outerPassword != [] then [outerPassword] else []) && keys == []
      ensures |bytes| == DATA_AREA_OFFSET + slots * SLOT_SIZE + (if withHidden then 1024 else 512)
      ensures StaysRandom(x.suite.Coins(at, |bytes|), bytes, if outerPassword != [] then 1 else 0)
      ensures HeaderFrom(x.suite, x.master, false, payload, Primary(bytes), at + |bytes|)
      ensures var then_ := at + |bytes| + HeaderCoins(x.cipher);
              outerPassword != [] ==>
                PasswordSlotFrom(x.suite, x.keying, x.master, outerPassword, payload.kdfProfile, PwSlotAt(bytes, 0),
                                 then_)
      ensures drawn == at + |bytes| + HeaderCoins(x.cipher) + (if outerPassword != [] then PW_COINS else 0)
    {
      hide IsHeader;
      hide HeaderFrom;
      hide IsPasswordSlot;
      hide PasswordSlotFrom;
      hide PasswordsOk;
      hide KeysOk;
      hide LayoutOk;
      hide Ideal;
      hide KeptOutside;
      hide StaysRandom;
      hide Range;
      hide Primary;
      hide Backup;
      var tailSize := if withHidden then 1024 else 512;
      var fileSize := DATA_AREA_OFFSET + slots * SLOT_SIZE + tailSize;
      var file := x.suite.Coins(at, fileSize);
      this.x := x;
      bytes := file;
      drawn := at + fileSize + HeaderCoins(x.cipher) + (if outerPassword != [] then PW_COINS else 0);
      meta, pw, keys := payload, [], [];
      new;
      TailRecovered(slots, withHidden);
      BackupBounds(fileSize);
      var outerHdr := EncodeHeader(x.suite, payload, x.master, false, at + fileSize);
      WriteAt(0, outerHdr);
      ghost var once := bytes;
      var outerBackupOff := if withHidden then fileSize - 1024 else fileSize - 512;
      WriteAt(outerBackupOff, outerHdr);
      HeadersWritten(file, once, bytes, outerHdr);
      NoRecipients(x, bytes, payload.kdfProfile);
      if outerPassword != [] {
        var pwSlot := EncodePasswordSlot(x.suite, x.keying, x.master, outerPassword, payload.kdfProfile,
                                         at + fileSize + HeaderCoins(x.cipher));
        SlotInside(fileSize, 0, 0);
        ghost var before := bytes;
        WriteAt(PwSlotOffset(0), pwSlot);
        PwSlotWritten(x, before, bytes, [], payload.kdfProfile, [], outerPassword);
        BackupKept(before, bytes);
        FirstSlotWritten(file, before, bytes);
        pw := [] + [outerPassword];
      }
    }

    method WriteAt(off: nat, d: seq<byte>)
      requires off + |d| <= |bytes|
      modifies this`bytes
      ensures KeptOutside(old(bytes), bytes, off, |d|) && Range(bytes, off, |d|) == d
    {
      WriteKeeps(bytes, off, d);
      bytes := Overwrite(bytes, off, d);
    }

    /** `update_slot_counts`: re-encode the header with new counts and write both copies. */
    method UpdateSlotCounts(nPw: byte, nKey: byte, oldRaw: seq<byte>) returns (r: Result<(), VnmError>)
      requires Ideal(x.suite) && LayoutOk(|bytes|) && |oldRaw| == HEADER_SIZE
      modifies this`bytes, this`meta, this`drawn
      ensures var m := Decoded(x.suite, oldRaw, x.master, x.cipher, false);
              && (m.Err? ==> r == Err(m.error) && bytes == old(bytes) && meta == old(meta) && drawn == old(drawn))
              && (m.Ok? ==> r.Ok? && meta == m.value.(numPasswordSlots := nPw, numKeySlots := nKey)
                            && OnlyHeaders(old(bytes), bytes) && HeadersOk(x, bytes, meta)
                            && HeaderFrom(x.suite, x.master, false, meta, Primary(bytes), old(drawn))
                            && drawn == old(drawn) + HeaderCoins(x.cipher))
    {
      hide Decoded;
      hide IsHeader;
      hide HeaderFrom;
      var m := DecodeHeader(x.suite, oldRaw, x.master, x.cipher, false);
      if m.Err? { return Err(m.error); }
      DecodedWellFormed(x.suite, oldRaw, x.master, x.cipher, false);
      var payload := m.value.(numPasswordSlots := nPw, numKeySlots := nKey);
      var hdr := EncodeHeader(x.suite, payload, x.master, false, drawn);
      drawn := drawn + HeaderCoins(x.cipher);
      var tail := TailOf(|bytes|);
      BackupBounds(|bytes|);
      var backupOff := if tail == 1024 then |bytes| - 1024 else |bytes| - 512;
      WriteAt(0, hdr);
      WriteAt(backupOff, hdr);
      meta := payload;
      r := Ok(());
    }

    /** The new slot, under fresh coins and the profile that the header records; then the headers, under fresh coins. */
    method AddPasswordRecipient(newPassword: Password) returns (r: Result<(), VnmError>)
      requires Valid()
      modifies this
      ensures Valid() && keys == old(keys)
      ensures r.Ok? <==> |old(pw)| < MAX_PASSWORD_SLOTS
      ensures r.Ok? ==> pw == old(pw) + [newPassword] && meta == old(meta).(numPasswordSlots := |pw|)
      ensures r.Ok? ==>
                && PasswordSlotFrom(x.suite, x.keying, x.master, newPassword, old(meta).kdfProfile,
                                    PwSlotAt(bytes, |old(pw)|), old(drawn))
                && HeaderFrom(x.suite, x.master, false, meta, Primary(bytes), old(drawn) + PW_COINS)
                && drawn == old(drawn) + PW_COINS + HeaderCoins(x.cipher)
      ensures r.Err? ==> r.error == InvalidFormat && bytes == old(bytes) && pw == old(pw) && meta == old(meta)
      ensures RestKept(old(bytes), bytes)
    {
      hide IsHeader;
      hide HeaderFrom;
      hide IsPasswordSlot;
      hide PasswordSlotFrom;
      hide IsKeySlot;
      hide KeySlotFrom;
      hide PasswordsOk;
      hide KeysOk;
      hide LayoutOk;
      hide Decoded;
      var raw := Range(bytes, 0, HEADER_SIZE);
      ReadPlain(x, meta, raw);
      var kdfProfile, nPw, nKey := raw[65], raw[66], raw[67];
      if nPw >= MAX_PASSWORD_SLOTS { return Err(InvalidFormat); }
      var slot := EncodePasswordSlot(x.suite, x.keying, x.master, newPassword, kdfProfile, drawn);
      drawn := drawn + PW_COINS;
      SlotInside(|bytes|, nPw, 0);
      ghost var b0 := bytes;
      WriteAt(PwSlotOffset(nPw), slot);
      PwSlotWritten(x, b0, bytes, pw, kdfProfile, keys, newPassword);
      ghost var b1 := bytes;
      pw := pw + [newPassword];
      r := UpdateSlotCounts(nPw + 1, nKey, raw);
      HeadersKeepSlots(x, b1, bytes, pw, meta.kdfProfile, keys);
      RestTwice(b0, b1, bytes);
    }

    method AddKeyRecipient(recipient: PublicKey) returns (r: Result<(), VnmError>)
      requires Valid()
      modifies this
      ensures Valid() && pw == old(pw)
      ensures r.Ok? <==> |old(keys)| < MAX_KEY_SLOTS
      ensures r.Ok? ==> keys == old(keys) + [recipient] && meta == old(meta).(numKeySlots := |keys|)
      ensures r.Ok? ==>
                var coins := KEM_COINS + NonceSectionLen(x.cipher);
                && KeySlotFrom(x.suite, x.keying, x.master, recipient, x.cipher, KeySlotAt(bytes, |old(keys)|),
                               old(drawn))
                && HeaderFrom(x.suite, x.master, false, meta, Primary(bytes), old(drawn) + coins)
                && drawn == old(drawn) + coins + HeaderCoins(x.cipher)
      ensures r.Err? ==> r.error == InvalidFormat && bytes == old(bytes) && keys == old(keys) && meta == old(meta)
      ensures RestKept(old(bytes), bytes)
    {
      hide IsHeader;
      hide HeaderFrom;
      hide IsPasswordSlot;
      hide PasswordSlotFrom;
      hide IsKeySlot;
      hide KeySlotFrom;
      hide PasswordsOk;
      hide KeysOk;
      hide LayoutOk;
      hide Decoded;
      var raw := Range(bytes, 0, HEADER_SIZE);
      ReadPlain(x, meta, raw);
      var nPw, nKey := raw[66], raw[67];
      if nKey >= MAX_KEY_SLOTS { return Err(InvalidFormat); }
      var slot := EncodeKeySlot(x.suite, x.keying, x.master, recipient, x.cipher, drawn);
      drawn := drawn + KEM_COINS + NonceSectionLen(x.cipher);
      SlotInside(|bytes|, 0, nKey);
      ghost var b0 := bytes;
      WriteAt(KeySlotOffset(nKey), slot);
      KeySlotWritten(x, b0, bytes, pw, meta.kdfProfile, keys, nKey, recipient);
      ghost var b1 := bytes;
      keys := keys + [recipient];
      r := UpdateSlotCounts(nPw, nKey + 1, raw);
      HeadersKeepSlots(x, b1, bytes, pw, meta.kdfProfile, keys);
      RestTwice(b0, b1, bytes);
    }

    /** The key slots 0 up to n, as they are on disk. */
    method ReadKeySlots(n: nat) returns (slots: seq<seq<byte>>)
      ensures |slots| == n && forall j :: 0 <= j < n ==> slots[j] == KeySlotAt(bytes, j)
    {
      slots := [];
      for j := 0 to n
        invariant |slots| == j && forall i :: 0 <= i < j ==> slots[i] == KeySlotAt(bytes, i)
      {
        slots := slots + [Range(bytes, KeySlotOffset(j), KEY_SLOT_SIZE)];
      }
    }

    /** Write these slots from slot 0 on. */
    method WriteKeySlots(slots: seq<seq<byte>>)
      requires |slots| <= MAX_KEY_SLOTS && DATA_AREA_OFFSET <= |bytes|
      requires forall j :: 0 <= j < |slots| ==> |slots[j]| == KEY_SLOT_SIZE
      modifies this`bytes
      ensures KeptOutside(old(bytes), bytes, KeySlotOffset(0), DATA_AREA_OFFSET - KeySlotOffset(0))
      ensures forall j :: 0 <= j < |slots| ==> KeySlotAt(bytes, j) == slots[j]
    {
      for i := 0 to |slots|
        invariant KeptOutside(old(bytes), bytes, KeySlotOffset(0), DATA_AREA_OFFSET - KeySlotOffset(0))
        invariant forall j :: 0 <= j < i ==> KeySlotAt(bytes, j) == slots[j]
      {
        ghost var before := bytes;
        SlotsApart(0, i);
        WriteAt(KeySlotOffset(i), slots[i]);
        forall j | 0 <= j < i ensures KeySlotAt(bytes, j) == KeySlotAt(before, j) {
          SlotsApart(j, i);
        }
        KeptWithin(old(bytes), before, bytes, i);
      }
    }

    /** Remove one key recipient; the ones behind it move down and the last slot is randomised. */
    method RemoveKeyRecipient(slotIndex: nat) returns (r: Result<(), VnmError>)
      requires Valid()
      modifies this
      ensures Valid() && pw == old(pw)
      ensures r.Ok? <==> slotIndex < |old(keys)|
      ensures r.Ok? ==>
                keys == old(keys)[..slotIndex] + old(keys)[slotIndex + 1..] && meta == old(meta).(numKeySlots := |keys|)
      ensures r.Ok? ==>
                && KeySlotAt(bytes, |keys|) == x.suite.Coins(old(drawn), KEY_SLOT_SIZE)
                && HeaderFrom(x.suite, x.master, false, meta, Primary(bytes), old(drawn) + KEY_SLOT_SIZE)
                && drawn == old(drawn) + KEY_SLOT_SIZE + HeaderCoins(x.cipher)
      ensures r.Err? ==> r.error == InvalidFormat && bytes == old(bytes) && keys == old(keys) && meta == old(meta)
      ensures RestKept(old(bytes), bytes)
    {
      hide IsHeader;
      hide HeaderFrom;
      hide IsPasswordSlot;
      hide IsKeySlot;
      hide PasswordsOk;
      hide KeysOk;
      hide LayoutOk;
      hide Decoded;
      hide Ideal;
      hide OnlyHeaders;
      var raw := Range(bytes, 0, HEADER_SIZE);
      ReadPlain(x, meta, raw);
      var nPw, nKey := raw[66], raw[67];
      if slotIndex >= nKey { return Err(InvalidFormat); }
      ghost var b0 := bytes;
      CompactKeySlots(nKey, slotIndex);
      ghost var b2 := bytes;
      keys := keys[..slotIndex] + keys[slotIndex + 1..];
      r := UpdateSlotCounts(nPw, nKey - 1, raw);
      HeadersKeepSlots(x, b2, bytes, pw, meta.kdfProfile, keys);
      RestTwice(b0, b2, bytes);
    }

    /** Read all key slots, write them back without one, and randomise the last. */
    method CompactKeySlots(nKey: nat, slotIndex: nat)
      requires Ideal(x.suite) && LawfulKeying(x.keying) && |x.master| == 32
      requires LayoutOk(|bytes|) && PasswordsOk(x, bytes, pw, meta.kdfProfile) && |pw| <= MAX_PASSWORD_SLOTS
      requires KeysOk(x, bytes, keys) && slotIndex < nKey == |keys| <= MAX_KEY_SLOTS
      modifies this`bytes, this`drawn
      ensures PasswordsOk(x, bytes, pw, meta.kdfProfile)
      ensures KeysOk(x, bytes, keys[..slotIndex] + keys[slotIndex + 1..])
      ensures KeySlotAt(bytes, nKey - 1) == x.suite.Coins(old(drawn), KEY_SLOT_SIZE)
      ensures drawn == old(drawn) + KEY_SLOT_SIZE
      ensures Primary(bytes) == Primary(old(bytes)) && RestKept(old(bytes), bytes)
    {
      hide PasswordsOk;
      hide KeysOk;
      hide RestKept;
      hide LayoutOk;
      hide Ideal;
      hide KeptOutside;
      hide Range;
      SlotInside(|bytes|, 0, nKey - 1);
      KeySlotSizes(x, bytes, keys);
      BackupBounds(|bytes|);
      ghost var b0 := bytes;
      var slots := ReadKeySlots(nKey);
      slots := slots[..slotIndex] + slots[slotIndex + 1..];
      forall j | 0 <= j < |slots|
        ensures slots[j] == KeySlotAt(b0, if j < slotIndex then j else j + 1) && |slots[j]| == KEY_SLOT_SIZE
      {
      }
      WriteKeySlots(slots);
      ghost var b1 := bytes;
      var random := x.suite.Coins(drawn, KEY_SLOT_SIZE);
      drawn := drawn + KEY_SLOT_SIZE;
      WriteAt(KeySlotOffset(|slots|), random);
      Compacted(x, b0, b1, bytes, pw, meta.kdfProfile, keys, slotIndex);
    }
  }

  /** Writing a key slot at the end of the list. */
  lemma KeySlotWritten(x: Secrets, b: seq<byte>, b': seq<byte>, pw: seq<Password>, profile: byte,
                       keys: seq<PublicKey>, n: nat, new_: PublicKey)
    requires LayoutOk(|b|) && KeptOutside(b, b', KeySlotOffset(n), KEY_SLOT_SIZE) && n == |keys| < MAX_KEY_SLOTS
    requires |pw| <= MAX_PASSWORD_SLOTS
    requires PasswordsOk(x, b, pw, profile) && KeysOk(x, b, keys)
    requires IsKeySlot(x.suite, x.keying, x.master, new_, x.cipher, KeySlotAt(b', n))
    ensures PasswordsOk(x, b', pw, profile) && KeysOk(x, b', keys + [new_])
    ensures Primary(b') == Primary(b) && RestKept(b, b')
  {
    hide IsPasswordSlot;
    hide IsKeySlot;
    SlotsApart(0, n);
    BackupBounds(|b|);
    forall i | 0 <= i < |pw| ensures PwSlotAt(b', i) == PwSlotAt(b, i) {
      SlotsApart(i, n);
    }
    forall j | 0 <= j < n ensures KeySlotAt(b', j) == KeySlotAt(b, j) {
      SlotsApart(j, n);
    }
  }

  lemma KeptWithin(b: seq<byte>, mid: seq<byte>, b': seq<byte>, i: nat)
    requires KeptOutside(b, mid, KeySlotOffset(0), DATA_AREA_OFFSET - KeySlotOffset(0))
    requires KeptOutside(mid, b', KeySlotOffset(i), KEY_SLOT_SIZE) && i < MAX_KEY_SLOTS
    ensures KeptOutside(b, b', KeySlotOffset(0), DATA_AREA_OFFSET - KeySlotOffset(0))
  {
    SlotsApart(0, i);
    forall lo: nat, m: nat | lo + m <= KeySlotOffset(0) || DATA_AREA_OFFSET <= lo
      ensures Range(b', lo, m) == Range(b, lo, m)
    {
      assert Range(b', lo, m) == Range(mid, lo, m);
    }
  }

  lemma KeySlotSizes(x: Secrets, b: seq<byte>, keys: seq<PublicKey>)
    requires Ideal(x.suite) && LawfulKeying(x.keying) && |x.master| == 32 && KeysOk(x, b, keys)
    ensures forall j :: 0 <= j < |keys| ==> |KeySlotAt(b, j)| == KEY_SLOT_SIZE
  {
    hide IsKeySlot;
    forall j | 0 <= j < |keys| ensures |KeySlotAt(b, j)| == KEY_SLOT_SIZE {
      SlotSizes(x.suite, x.keying, x.master, [], 0, keys[j], x.cipher, KeySlotAt(b, j));
    }
  }

  /** A change inside the key slots keeps the headers, the passwords and the rest of the file. */
  lemma OutsideKeySlots(x: Secrets, b: seq<byte>, b': seq<byte>, pw: seq<Password>, profile: byte)
    requires LayoutOk(|b|) && |pw| <= MAX_PASSWORD_SLOTS && PasswordsOk(x, b, pw, profile)
    requires KeptOutside(b, b', KeySlotOffset(0), DATA_AREA_OFFSET - KeySlotOffset(0))
    ensures PasswordsOk(x, b', pw, profile) && Primary(b') == Primary(b) && RestKept(b, b')
  {
    hide IsPasswordSlot;
    BackupBounds(|b|);
    SlotsApart(0, 0);
    forall i | 0 <= i < |pw| ensures PwSlotAt(b', i) == PwSlotAt(b, i) {
      SlotsApart(i, 0);
    }
  }

  /** Compaction: the remaining slots keep their order, everything outside the key slots stays. */
  lemma Compacted(x: Secrets, b0: seq<byte>, b1: seq<byte>, b2: seq<byte>, pw: seq<Password>, profile: byte,
                  keys: seq<PublicKey>, at: nat)
    requires LayoutOk(|b0|) && at < |keys| <= MAX_KEY_SLOTS && |pw| <= MAX_PASSWORD_SLOTS
    requires PasswordsOk(x, b0, pw, profile) && KeysOk(x, b0, keys)
    requires KeptOutside(b0, b1, KeySlotOffset(0), DATA_AREA_OFFSET - KeySlotOffset(0))
    requires forall j :: 0 <= j < |keys| - 1 ==> KeySlotAt(b1, j) == KeySlotAt(b0, if j < at then j else j + 1)
    requires KeptOutside(b1, b2, KeySlotOffset(|keys| - 1), KEY_SLOT_SIZE)
    ensures PasswordsOk(x, b2, pw, profile) && KeysOk(x, b2, keys[..at] + keys[at + 1..])
    ensures Primary(b2) == Primary(b0) && RestKept(b0, b2)
  {
    hide PwSlotAt;
    hide IsPasswordSlot;
    hide IsKeySlot;
    KeptWithin(b0, b1, b2, |keys| - 1);
    OutsideKeySlots(x, b0, b2, pw, profile);
    hide Range;
    hide RestKept;
    hide PasswordsOk;
    hide LayoutOk;
    var left := keys[..at] + keys[at + 1..];
    forall j | 0 <= j < |left| ensures IsKeySlot(x.suite, x.keying, x.master, left[j], x.cipher, KeySlotAt(b2, j)) {
      SlotsApart(j, |keys| - 1);
      assert KeySlotAt(b2, j) == KeySlotAt(b1, j);
      assert left[j] == keys[if j < at then j else j + 1];
    }
  }

  lemma NoRecipients(x: Secrets, b: seq<byte>, profile: byte)
    ensures PasswordsOk(x, b, [], profile) && KeysOk(x, b, [])
  {
  }

  lemma BackupKept(b: seq<byte>, b': seq<byte>)
    requires LayoutOk(|b|) && KeptOutside(b, b', PwSlotOffset(0), PW_SLOT_SIZE)
    ensures Backup(b') == Backup(b)
  {
    BackupBounds(|b|);
    SlotsApart(0, 0);
  }

  /** The plaintext bytes of a header. */
  lemma ReadPlain(x: Secrets, meta: HeaderPayload, raw: seq<byte>)
    requires Ideal(x.suite) && IsHeader(x.suite, x.master, false, meta, raw)
    ensures |raw| == HEADER_SIZE && raw[65] == meta.kdfProfile && raw[66] == meta.numPasswordSlots
    ensures raw[67] == meta.numKeySlots
    ensures Decoded(x.suite, raw, x.master, meta.cipher, false) == Ok(meta)
  {
    hide Sealed;
    HeaderRoundTrip(x.suite, x.master, false, meta, raw);
  }

  lemma SlotInside(size: nat, i: nat, j: nat)
    requires LayoutOk(size) && i < MAX_PASSWORD_SLOTS && j < MAX_KEY_SLOTS
    ensures PwSlotOffset(i) + PW_SLOT_SIZE <= size && KeySlotOffset(j) + KEY_SLOT_SIZE <= size
  {
    SlotsApart(i, j);
  }

  lemma RestTwice(b: seq<byte>, mid: seq<byte>, b': seq<byte>)
    requires RestKept(b, mid) && OnlyHeaders(mid, b') && LayoutOk(|b|)
    ensures RestKept(b, b')
  {
    BackupBounds(|b|);
  }

  // ── Finding a header ──────────────────────────────────────────────────────

  /** Where `open` looks for an outer header, in order: the start, then 512 and 1024 bytes before the end. */
  function HeaderOffset(size: nat, o: nat): nat {
    if o == 0 then 0
    else if o == 1 then (if size < 512 then 0 else size - 512)
    else if size < 1024 then 0 else size - 1024
  }

  /** What the header at the o-th place decodes to under the c-th cipher. */
  function HeaderAs(s: Suite, b: seq<byte>, k: seq<byte>, o: nat, c: nat): Option<HeaderPayload>
    requires c < |ALL_CIPHERS|
  {
    var raw := Range(b, HeaderOffset(|b|, o), HEADER_SIZE);
    if |raw| == HEADER_SIZE then Decoded(s, raw, k, ALL_CIPHERS[c], false).ToOption() else None
  }

  /** The first header that decodes, from place o and cipher c on. */
  function FirstHeader(s: Suite, b: seq<byte>, k: seq<byte>, o: nat, c: nat): Option<HeaderPayload>
    requires o <= 3 && c <= |ALL_CIPHERS|
    decreases 3 - o, |ALL_CIPHERS| - c
  {
    if o == 3 then None
    else if c == |ALL_CIPHERS| then FirstHeader(s, b, k, o + 1, 0)
    else
      var h := HeaderAs(s, b, k, o, c);
      if h.Some? then h else FirstHeader(s, b, k, o, c + 1)
  }

  method FindHeader(s: Suite, b: seq<byte>, k: seq<byte>) returns (r: Option<HeaderPayload>)
    requires Ideal(s)
    ensures r == FirstHeader(s, b, k, 0, 0)
  {
    hide Decoded;
    hide HeaderOffset;
    hide Range;
    hide Ideal;
    for o := 0 to 3
      invariant FirstHeader(s, b, k, 0, 0) == FirstHeader(s, b, k, o, 0)
    {
      var raw := Range(b, HeaderOffset(|b|, o), HEADER_SIZE);
      for c := 0 to |ALL_CIPHERS|
        invariant FirstHeader(s, b, k, 0, 0) == FirstHeader(s, b, k, o, c)
      {
        if |raw| == HEADER_SIZE {
          var d := DecodeHeader(s, raw, k, ALL_CIPHERS[c], false);
          if d.Ok? { return Some(d.value); }
        }
      }
    }
    r := None;
  }

  /** The search passes over every place and cipher before (o, c) that does not decode. */
  lemma {:induction false} SkipTo(s: Suite, b: seq<byte>, k: seq<byte>, o: nat, c: nat, o': nat, c': nat)
    requires o <= o' < 3 && c <= |ALL_CIPHERS| && c' < |ALL_CIPHERS| && (o == o' ==> c <= c')
    requires forall i: nat, j: nat :: i < 3 && j < |ALL_CIPHERS| && (i < o' || (i == o' && j < c')) ==>
               HeaderAs(s, b, k, i, j) == None
    ensures FirstHeader(s, b, k, o, c) == FirstHeader(s, b, k, o', c')
    decreases 3 - o, |ALL_CIPHERS| - c
  {
    hide HeaderAs;
    if o < o' || c < c' {
      if c == |ALL_CIPHERS| {
        SkipTo(s, b, k, o + 1, 0, o', c');
      } else {
        SkipTo(s, b, k, o, c + 1, o', c');
      }
    }
  }

  /**
   Either copy will do: when nothing that is looked at earlier decodes, the copy at the start or the
   backup gives the container's metadata.
   */
  lemma HeaderFound(x: Secrets, b: seq<byte>, meta: HeaderPayload, o: nat, c: nat)
    requires Ideal(x.suite) && meta.cipher == x.cipher && o < 3 && c < |ALL_CIPHERS| && ALL_CIPHERS[c] == x.cipher
    requires IsHeader(x.suite, x.master, false, meta, Range(b, HeaderOffset(|b|, o), HEADER_SIZE))
    requires forall i: nat, j: nat :: i < 3 && j < |ALL_CIPHERS| && (i < o || (i == o && j < c)) ==>
               HeaderAs(x.suite, b, x.master, i, j) == None
    ensures FirstHeader(x.suite, b, x.master, 0, 0) == Some(meta)
  {
    hide IsHeader;
    hide Decoded;
    SkipTo(x.suite, b, x.master, 0, 0, o, c);
    HeaderRoundTrip(x.suite, x.master, false, meta, Range(b, HeaderOffset(|b|, o), HEADER_SIZE));
  }

  /** Both copies of a sound table are among the places that are looked at. */
  lemma CopiesAreLookedAt(b: seq<byte>)
    requires LayoutOk(|b|)
    ensures Primary(b) == Range(b, HeaderOffset(|b|, 0), HEADER_SIZE)
    ensures Backup(b) == Range(b, HeaderOffset(|b|, if TailOf(|b|) == 1024 then 2 else 1), HEADER_SIZE)
  {
    BackupBounds(|b|);
  }

  /** The position of a cipher in the probing order. */
  function CipherIndex(c: CipherAlgorithm): (i: nat)
    ensures i < |ALL_CIPHERS| && ALL_CIPHERS[i] == c
  {
    match c
    case XChaCha20Poly1305 => 0
    case DeoxysII256 => 1
    case Serpent256 => 2
    case Triple => 3
  }

  /** Where the search comes across the backup copy. */
  function BackupPlace(size: nat): nat {
    if TailOf(size) == 1024 then 2 else 1
  }

  /** A place and a cipher that the search tries before (o, c), and that decode under the master key. */
  ghost predicate EarlierHeader(x: Secrets, b: seq<byte>, o: nat, c: nat, w: (nat, nat)) {
    && w.0 < 3 && w.1 < |ALL_CIPHERS| && (w.0 < o || (w.0 == o && w.1 < c))
    && HeaderAs(x.suite, b, x.master, w.0, w.1).Some?
  }

  /** The copy at a place is found, or something that is looked at earlier decodes as well. */
  lemma CopyFound(x: Secrets, b: seq<byte>, meta: HeaderPayload, o: nat) returns (w: Option<(nat, nat)>)
    requires Ideal(x.suite) && meta.cipher == x.cipher && o < 3
    requires IsHeader(x.suite, x.master, false, meta, Range(b, HeaderOffset(|b|, o), HEADER_SIZE))
    ensures w.None? ==> FirstHeader(x.suite, b, x.master, 0, 0) == Some(meta)
    ensures w.Some? ==> EarlierHeader(x, b, o, CipherIndex(x.cipher), w.value)
  {
    hide IsHeader;
    hide HeaderAs;
    hide FirstHeader;
    var c := CipherIndex(x.cipher);
    if i: nat, j: nat :| j < |ALL_CIPHERS| && EarlierHeader(x, b, o, c, (i, j)) {
      return Some((i, j));
    }
    forall i: nat, j: nat | i < 3 && j < |ALL_CIPHERS| && (i < o || (i == o && j < c))
      ensures HeaderAs(x.suite, b, x.master, i, j) == None
    {
      assert !EarlierHeader(x, b, o, c, (i, j));
    }
    HeaderFound(x, b, meta, o, c);
    w := None;
  }

  /**
   What the second copy is for: whatever happened to the first 512 bytes of a sound container file, the
   master key still finds the metadata in the backup, unless something that is looked at earlier
   decodes under that key too.
   */
  lemma BackupServes(x: Secrets, b: seq<byte>, b': seq<byte>, meta: HeaderPayload, pw: seq<Password>,
                     keys: seq<PublicKey>)
    returns (w: Option<(nat, nat)>)
    requires Ideal(x.suite) && TableOk(x, b, meta, pw, keys) && OnlyStartChanged(b, b')
    ensures w.None? ==> FirstHeader(x.suite, b', x.master, 0, 0) == Some(meta)
    ensures w.Some? ==> EarlierHeader(x, b', BackupPlace(|b|), CipherIndex(x.cipher), w.value)
  {
    hide IsHeader;
    hide FirstHeader;
    hide EarlierHeader;
    BackupBounds(|b|);
    CopiesAreLookedAt(b);
    w := CopyFound(x, b', meta, BackupPlace(|b|));
  }

  /** Only the first header's 512 bytes may differ. */
  ghost predicate OnlyStartChanged(b: seq<byte>, b': seq<byte>) {
    |b'| == |b| && forall lo: nat, n: nat {:trigger Range(b', lo, n)} :: HEADER_SIZE <= lo ==>
      Range(b', lo, n) == Range(b, lo, n)
  }

  // ── Who can open the container ────────────────────────────────────────────

  function FirstPassword(s: Suite, g: Keying, b: seq<byte>, password: Password, i: nat,
                         n: nat): Option<(seq<byte>, CipherAlgorithm)>
    requires i <= n
    decreases n - i
  {
    if i == n || |PwSlotAt(b, i)| != PW_SLOT_SIZE then None
    else
      var r := PasswordOpens(s, g, PwSlotAt(b, i), password);
      if r.Some? then r else FirstPassword(s, g, b, password, i + 1, n)
  }

  function FirstKey(s: Suite, g: Keying, b: seq<byte>, sk: PrivateKey, j: nat,
                    n: nat): Option<(seq<byte>, CipherAlgorithm)>
    requires j <= n
    decreases n - j
  {
    if j == n || |KeySlotAt(b, j)| != KEY_SLOT_SIZE then None
    else
      var r := KeyOpens(s, g, KeySlotAt(b, j), sk);
      if r.Some? then r else FirstKey(s, g, b, sk, j + 1, n)
  }

  /** `try_pw_slots`: the first of n slots that the password opens. */
  method TryPwSlots(s: Suite, g: Keying, b: seq<byte>, password: Password, n: nat)
    returns (r: Option<(seq<byte>, CipherAlgorithm)>)
    requires Ideal(s)
    ensures r == FirstPassword(s, g, b, password, 0, n)
  {
    hide PasswordOpens;
    for i := 0 to n
      invariant FirstPassword(s, g, b, password, 0, n) == FirstPassword(s, g, b, password, i, n)
    {
      var slot := Range(b, PwSlotOffset(i), PW_SLOT_SIZE);
      if |slot| != PW_SLOT_SIZE { return None; }
      var found := TryPasswordSlot(s, g, slot, password);
      if found.Some? { return found; }
    }
    r := None;
  }

  /** `try_key_slots`: the first of n slots that the private key opens. */
  method TryKeySlots(s: Suite, g: Keying, b: seq<byte>, sk: PrivateKey, n: nat)
    returns (r: Option<(seq<byte>, CipherAlgorithm)>)
    requires Ideal(s)
    ensures r == FirstKey(s, g, b, sk, 0, n)
  {
    hide KeyOpens;
    for j := 0 to n
      invariant FirstKey(s, g, b, sk, 0, n) == FirstKey(s, g, b, sk, j, n)
    {
      var slot := Range(b, KeySlotOffset(j), KEY_SLOT_SIZE);
      if |slot| != KEY_SLOT_SIZE { return None; }
      var found := TryKeySlot(s, g, slot, sk);
      if found.Some? { return found; }
    }
    r := None;
  }

  // ── What it takes to open a container as nobody's recipient ───────────────

  /** One way to make a sealed area: a 32-byte text under a key and a cipher. */
  datatype Seal = Seal(key: seq<byte>, cipher: CipherAlgorithm, text: seq<byte>)

  /** The start of the area is exactly that sealing, with the nonces it carries. */
  ghost predicate IsSealOf(s: Suite, aad: seq<byte>, enc: seq<byte>, w: Seal)
    requires |enc| == VNMB_ENCRYPTED_32_MAX
  {
    && |w.text| == 32 && Enc32(w.cipher) >= MinLen(w.cipher)
    && enc[..Enc32(w.cipher)] == Sealed(s, w.key, w.cipher, aad, NoncesOf(w.cipher, enc[..Enc32(w.cipher)]), w.text)
  }

  /** Two keys coincide in a slot, or the slot is a sealing in two different ways, the first its recipient's. */
  datatype Mistake = KeysMeet(slot: nat) | SealedTwice(slot: nat, one: Seal, two: Seal)

  /** What opens at all is a sealing under the key that opened it. */
  lemma {:induction false} ProbedIsSeal(s: Suite, key: seq<byte>, aad: seq<byte>, enc: seq<byte>, i: nat)
    requires Ideal(s) && |enc| == VNMB_ENCRYPTED_32_MAX && i <= |ALL_CIPHERS|
    ensures var r := Probe(s, key, aad, enc, i); r.Some? ==> IsSealOf(s, aad, enc, Seal(key, r.value.1, r.value.0))
    decreases |ALL_CIPHERS| - i
  {
    hide OpenBlock;
    hide Sealed;
    hide IsSealOf;
    if i < |ALL_CIPHERS| {
      var r := OpensWith(s, key, ALL_CIPHERS[i], aad, enc);
      if r.Some? {
        OpenedIsSeal(s, key, ALL_CIPHERS[i], aad, enc, r.value);
      } else {
        ProbedIsSeal(s, key, aad, enc, i + 1);
      }
    }
  }

  lemma OpenedIsSeal(s: Suite, key: seq<byte>, c: CipherAlgorithm, aad: seq<byte>, enc: seq<byte>, text: seq<byte>)
    requires Ideal(s) && |enc| == VNMB_ENCRYPTED_32_MAX && OpensWith(s, key, c, aad, enc) == Some(text)
    ensures IsSealOf(s, aad, enc, Seal(key, c, text))
  {
    hide OpenBlock;
    hide Sealed;
    OpenBlockIff(s, key, c, aad, enc[..Enc32(c)], text);
  }

  /** An area made under `key`, probed with any key: the container's key, nothing, or two sealings of one area. */
  lemma Probed(s: Suite, key: seq<byte>, c: CipherAlgorithm, aad: seq<byte>, enc: seq<byte>, k: seq<byte>,
               key': seq<byte>)
    returns (w: Option<(Seal, Seal)>)
    requires Ideal(s) && |enc| == VNMB_ENCRYPTED_32_MAX && OpensWith(s, key, c, aad, enc) == Some(k)
    ensures w.None? ==>
              Probe(s, key', aad, enc, 0) == Some((k, c)) || (key' != key && Probe(s, key', aad, enc, 0) == None)
    ensures w.None? && key' != key ==> Probe(s, key', aad, enc, 0) == None
    ensures w.Some? ==>
              && w.value.0 == Seal(key, c, k) && w.value.1.key == key' && w.value.0 != w.value.1
              && IsSealOf(s, aad, enc, w.value.0) && IsSealOf(s, aad, enc, w.value.1)
  {
    hide OpensWith;
    hide IsSealOf;
    hide Probe;
    OpenedIsSeal(s, key, c, aad, enc, k);
    ProbedIsSeal(s, key', aad, enc, 0);
    ProbeSome(s, key, c, aad, enc);
    var r := Probe(s, key', aad, enc, 0);
    if r.None? || Seal(key', r.value.1, r.value.0) == Seal(key, c, k) { return None; }
    w := Some((Seal(key, c, k), Seal(key', r.value.1, r.value.0)));
  }

  lemma ProbeSome(s: Suite, key: seq<byte>, c: CipherAlgorithm, aad: seq<byte>, enc: seq<byte>)
    requires |enc| == VNMB_ENCRYPTED_32_MAX && OpensWith(s, key, c, aad, enc).Some?
    ensures Probe(s, key, aad, enc, 0).Some?
  {
    hide OpensWith;
    ProbeFinds(s, key, aad, enc, c, OpensWith(s, key, c, aad, enc).value);
    assert Probe(s, key, aad, enc, 3).Some? || c != Triple;
    assert Probe(s, key, aad, enc, 2).Some? || c !in {Triple, Serpent256};
    assert Probe(s, key, aad, enc, 1).Some? || c !in {Triple, Serpent256, DeoxysII256};
  }

  /**
   A mistake in a password slot of this table, the witness that a wrong answer would take: the recipient's
   key is also the one tried, or the recipient's own sealing is at the same time one under the key tried.
   */
  ghost predicate PasswordMistake(x: Secrets, b: seq<byte>, pw: seq<Password>, password: Password, m: Mistake) {
    && m.slot < |pw| && |PwSlotAt(b, m.slot)| == PW_SLOT_SIZE
    && var slot := PwSlotAt(b, m.slot);
    match m
    case KeysMeet(i) =>
      && pw[i] != password
      && x.keying.passwordKey(pw[i], slot[32] == 1, slot[..32]) ==
        x.keying.passwordKey(password, slot[32] == 1, slot[..32])
    case SealedTwice(i, one, two) =>
      && one == Seal(x.keying.passwordKey(pw[i], slot[32] == 1, slot[..32]), Triple, x.master)
      && two.key == x.keying.passwordKey(password, slot[32] == 1, slot[..32]) && one != two
      && IsSealOf(x.suite, AAD_PW, slot[33..], one) && IsSealOf(x.suite, AAD_PW, slot[33..], two)
  }

  /** What one password makes of one slot. */
  lemma PasswordSlotCase(x: Secrets, b: seq<byte>, pw: seq<Password>, profile: byte, password: Password, i: nat)
    returns (w: Option<Mistake>)
    requires Ideal(x.suite) && |x.master| == 32 && i < |pw| && |PwSlotAt(b, i)| == PW_SLOT_SIZE
    requires IsPasswordSlot(x.suite, x.keying, x.master, pw[i], profile, PwSlotAt(b, i))
    ensures w.None? ==> PasswordOpens(x.suite, x.keying, PwSlotAt(b, i), password) ==
                          if pw[i] == password then Some((x.master, Triple)) else None
    ensures w.Some? ==> PasswordMistake(x, b, pw, password, w.value)
  {
    hide Sealed;
    hide OpensWith;
    hide Probe;
    hide IsSealOf;
    var slot := PwSlotAt(b, i);
    var salt, nonces :| PasswordSlotWith(x.suite, x.keying, x.master, pw[i], slot, salt, profile, nonces);
    var key := x.keying.passwordKey(pw[i], profile == 1, salt);
    var block := Sealed(x.suite, key, Triple, AAD_PW, nonces, x.master);
    SealedLength(x.suite, key, Triple, AAD_PW, nonces, x.master);
    assert slot[..32] == salt && slot[32] == profile && slot[33..] == block && block[..Enc32(Triple)] == block;
    SealedOpensWith(x.suite, key, Triple, AAD_PW, nonces, x.master, slot[33..]);
    var key' := x.keying.passwordKey(password, profile == 1, salt);
    if pw[i] != password && key' == key { return Some(KeysMeet(i)); }
    var seals := Probed(x.suite, key, Triple, AAD_PW, slot[33..], x.master, key');
    w := if seals.None? then None else Some(SealedTwice(i, seals.value.0, seals.value.1));
  }

  /**
   A password recovers the master key exactly when it is a current recipient, and nothing at all
   otherwise. Anything else hands out a witness: two passwords with one key under a slot's salt, or a
   slot that is a sealing in two different ways.
   */
  lemma {:induction false} PasswordRecovers(x: Secrets, b: seq<byte>, pw: seq<Password>, profile: byte,
                                            password: Password, i: nat)
    returns (w: Option<Mistake>)
    requires Ideal(x.suite) && LawfulKeying(x.keying) && |x.master| == 32 && i <= |pw|
    requires PasswordsOk(x, b, pw, profile)
    ensures w.None? ==>
              FirstPassword(x.suite, x.keying, b, password, i, |pw|) ==
                if password in pw[i..] then Some((x.master, Triple)) else None
    ensures w.Some? ==> PasswordMistake(x, b, pw, password, w.value)
    decreases |pw| - i
  {
    hide IsPasswordSlot;
    hide PasswordOpens;
    hide PasswordMistake;
    w := None;
    if i < |pw| {
      SlotSizes(x.suite, x.keying, x.master, pw[i], profile, [], x.cipher, PwSlotAt(b, i));
      w := PasswordSlotCase(x, b, pw, profile, password, i);
      if w.Some? { return; }
      w := PasswordRecovers(x, b, pw, profile, password, i + 1);
      assert pw[i..] == [pw[i]] + pw[i + 1..];
    }
  }

  /**
   A mistake in a key slot: a foreign private key that decapsulates to the recipient's secret, or the
   recipient's own sealing is at the same time one under the secret that the private key gives.
   */
  ghost predicate KeyMistake(x: Secrets, b: seq<byte>, keys: seq<PublicKey>, sk: PrivateKey, m: Mistake) {
    && m.slot < |keys| && |KeySlotAt(b, m.slot)| == KEY_SLOT_SIZE
    && var slot := KeySlotAt(b, m.slot);
    match m
    case KeysMeet(j) =>
      && keys[j] != x.keying.publicKey(sk)
      && exists coins ::
           var e := x.keying.encapsulate(keys[j], coins);
           e.ephemeral + e.ciphertext <= slot && x.keying.decapsulate(sk, e.ephemeral, e.ciphertext) == Some(e.secret)
    case SealedTwice(j, one, two) =>
      var enc := slot[X25519_PK_SIZE + CT_SIZE..];
      && (exists coins ::
           var e := x.keying.encapsulate(keys[j], coins);
           e.ephemeral + e.ciphertext <= slot && one == Seal(e.secret, x.cipher, x.master))
      && x.keying.decapsulate(sk, slot[..X25519_PK_SIZE], slot[X25519_PK_SIZE..X25519_PK_SIZE + CT_SIZE]) ==
        Some(two.key)
      && one != two && IsSealOf(x.suite, AAD_KEY, enc, one) && IsSealOf(x.suite, AAD_KEY, enc, two)
  }

  /** What one private key makes of one slot. */
  lemma KeySlotCase(x: Secrets, b: seq<byte>, keys: seq<PublicKey>, sk: PrivateKey, j: nat) returns (w: Option<Mistake>)
    requires Ideal(x.suite) && LawfulKeying(x.keying) && |x.master| == 32 && j < |keys|
    requires |KeySlotAt(b, j)| == KEY_SLOT_SIZE
    requires IsKeySlot(x.suite, x.keying, x.master, keys[j], x.cipher, KeySlotAt(b, j))
    ensures w.None? ==> KeyOpens(x.suite, x.keying, KeySlotAt(b, j), sk) ==
                          if keys[j] == x.keying.publicKey(sk) then Some((x.master, x.cipher)) else None
    ensures w.Some? ==> KeyMistake(x, b, keys, sk, w.value)
  {
    hide Sealed;
    hide OpensWith;
    hide Probe;
    hide IsSealOf;
    var slot := KeySlotAt(b, j);
    var coins, nonces :| KeySlotWith(x.suite, x.keying, x.master, keys[j], x.cipher, slot, coins, nonces);
    var e := x.keying.encapsulate(keys[j], coins);
    var block := Sealed(x.suite, e.secret, x.cipher, AAD_KEY, nonces, x.master);
    SealedLength(x.suite, e.secret, x.cipher, AAD_KEY, nonces, x.master);
    var at := X25519_PK_SIZE + CT_SIZE;
    assert slot[..X25519_PK_SIZE] == e.ephemeral && slot[X25519_PK_SIZE..at] == e.ciphertext;
    assert slot[at..][..Enc32(x.cipher)] == block;
    SealedOpensWith(x.suite, e.secret, x.cipher, AAD_KEY, nonces, x.master, slot[at..]);
    var shared := x.keying.decapsulate(sk, e.ephemeral, e.ciphertext);
    if shared.None? { return None; }
    assert e.ephemeral + e.ciphertext <= slot;
    if keys[j] != x.keying.publicKey(sk) && shared.value == e.secret {
      return Some(KeysMeet(j));
    }
    var seals := Probed(x.suite, e.secret, x.cipher, AAD_KEY, slot[at..], x.master, shared.value);
    w := if seals.None? then None else Some(SealedTwice(j, seals.value.0, seals.value.1));
  }

  /** A private key recovers the master key exactly when its public key is a recipient, or there is a witness. */
  lemma {:induction false} KeyRecovers(x: Secrets, b: seq<byte>, keys: seq<PublicKey>, sk: PrivateKey, j: nat)
    returns (w: Option<Mistake>)
    requires Ideal(x.suite) && LawfulKeying(x.keying) && |x.master| == 32 && KeysOk(x, b, keys) && j <= |keys|
    ensures w.None? ==>
              FirstKey(x.suite, x.keying, b, sk, j, |keys|) ==
                if x.keying.publicKey(sk) in keys[j..] then Some((x.master, x.cipher)) else None
    ensures w.Some? ==> KeyMistake(x, b, keys, sk, w.value)
    decreases |keys| - j
  {
    hide IsKeySlot;
    hide KeyOpens;
    hide KeyMistake;
    w := None;
    if j < |keys| {
      SlotSizes(x.suite, x.keying, x.master, [], 0, keys[j], x.cipher, KeySlotAt(b, j));
      w := KeySlotCase(x, b, keys, sk, j);
      if w.Some? { return; }
      w := KeyRecovers(x, b, keys, sk, j + 1);
      assert keys[j..] == [keys[j]] + keys[j + 1..];
    }
  }
}
