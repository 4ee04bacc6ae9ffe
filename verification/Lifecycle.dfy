/**
 One container file from creation to the next mount (vnmcore/src/fs/container.rs): headers, recipient
 slots and data slots share one byte string, and none of the three disturbs the others.
 */
module Lifecycle {
  import opened Wrappers
  import opened Bytes
  import opened Cipher
  import opened Layout
  import opened Merkle
  import opened Header
  import opened Recipients
  import opened RecipientTable
  import opened VaultFs
  import opened SlotStore
  import opened Container
  import opened Mount
  import opened Rollback
  import FreeList

  const OUTER_ALLOC_SLOT: nat := 0
  const OUTER_ROOT_SLOT: nat := 1

  // ── Slots, headers and recipients stay out of each other's way ────────────

  /** Writing data slots keeps both header copies and every recipient. */
  lemma SlotsKeepTable(x: Secrets, b: seq<byte>, b': seq<byte>, limit: nat, meta: HeaderPayload, pw: seq<Password>,
                       keys: seq<PublicKey>)
    requires TableOk(x, b, meta, pw, keys) && OnlySlots(b, b', limit) && SlotOffset(limit) <= BackupOffset(|b|)
    ensures TableOk(x, b', meta, pw, keys)
  {
    hide IsHeader;
    hide IsPasswordSlot;
    hide IsKeySlot;
    BackupBounds(|b|);
    forall lo: nat, n: nat {:trigger Range(b', lo, n)} | lo + n <= DATA_AREA_OFFSET || SlotOffset(limit) <= lo
      ensures Range(b', lo, n) == Range(b, lo, n)
    {
    }
    forall i | 0 <= i < |pw| ensures PwSlotAt(b', i) == PwSlotAt(b, i) {
      SlotsApart(i, 0);
      SlotsApart(0, 0);
    }
    forall j | 0 <= j < |keys| ensures KeySlotAt(b', j) == KeySlotAt(b, j) {
      SlotsApart(0, j);
    }
  }

  /** Changing recipients keeps the volume as it was flushed. */
  lemma RecipientsKeepVolume(v: Volume, codec: Codec, b: seq<byte>, b': seq<byte>,
                             nodes: map<nat, Node>, free: seq<nat>, generation: nat, root: seq<byte>)
    requires RestKept(b, b') && LayoutOk(|b|) && SlotOffset(v.slotLimit) <= BackupOffset(|b|)
    requires Persisted(v, codec, b, nodes, free, generation, root)
    ensures Persisted(v, codec, b', nodes, free, generation, root)
  {
    hide ReadSlot;
    BackupBounds(|b|);
    forall t: nat | t < v.slotLimit ensures RawSlot(b', t) == RawSlot(b, t) {
      assert SlotOffset(t) + SLOT_SIZE <= SlotOffset(v.slotLimit);
      assert Range(b', SlotOffset(t), SLOT_SIZE) == Range(b, SlotOffset(t), SLOT_SIZE);
    }
    SameSlots(v, codec, b, b', nodes, free, generation, root);
  }

  lemma SameSlots(v: Volume, codec: Codec, b: seq<byte>, b': seq<byte>,
                  nodes: map<nat, Node>, free: seq<nat>, generation: nat, root: seq<byte>)
    requires Persisted(v, codec, b, nodes, free, generation, root) && |b'| == |b|
    requires forall t: nat :: t < v.slotLimit ==> RawSlot(b', t) == RawSlot(b, t)
    ensures Persisted(v, codec, b', nodes, free, generation, root)
  {
    hide RawSlot;
    hide SavedAs;
    hide Root;
    hide UsedSlots;
    SameReads(v, codec, b, b');
    SameSaved(v, b, b', free, generation, root);
    SameRoot(v, b, b', free, root);
    hide ReadSlot;
    hide NodeAt;
    hide Saved;
    hide RootCurrent;
  }

  lemma SameReads(v: Volume, codec: Codec, b: seq<byte>, b': seq<byte>)
    requires forall t: nat :: t < v.slotLimit ==> RawSlot(b', t) == RawSlot(b, t)
    ensures forall t: nat :: t < v.slotLimit ==> NodeAt(v, codec, b', t) == NodeAt(v, codec, b, t)
  {
    hide RawSlot;
  }

  lemma SameSaved(v: Volume, b: seq<byte>, b': seq<byte>, free: seq<nat>, generation: nat, root: seq<byte>)
    requires v.Valid() && RawSlot(b', v.allocSlot) == RawSlot(b, v.allocSlot)
    ensures Saved(v, b, free, generation, root) ==> Saved(v, b', free, generation, root)
  {
    hide RawSlot;
    assert ReadSlot(v, b', v.allocSlot) == ReadSlot(v, b, v.allocSlot);
    if Saved(v, b, free, generation, root) {
      var bitmap :| SavedAs(v, b, free, generation, root, bitmap);
      assert SavedAs(v, b', free, generation, root, bitmap);
    }
  }

  lemma SameRoot(v: Volume, b: seq<byte>, b': seq<byte>, free: seq<nat>, root: seq<byte>)
    requires forall t: nat :: t < v.slotLimit ==> RawSlot(b', t) == RawSlot(b, t)
    ensures RootCurrent(v, b, free, root) ==> RootCurrent(v, b', free, root)
  {
    hide RawSlot;
    hide Root;
    var used := UsedSlots(v, free);
    if root != ZERO_ROOT && RootCurrent(v, b, free, root) {
      forall i | 0 <= i < |used| ensures RawSlot(b', used[i]) == RawSlot(b, used[i]) {
        assert used[i] in used;
      }
      RootFrame(v.suite.deriveKey, b, b', used);
    }
  }

  // ── Opening ───────────────────────────────────────────────────────────────

  datatype Credential = ByPassword(password: Password) | ByKey(sk: PrivateKey)

  /** The numbers of password and key slots in the plaintext of a header. */
  function PlainCounts(raw: seq<byte>): (byte, byte) {
    if |raw| == HEADER_SIZE then (raw[66], raw[67]) else (0, 0)
  }

  /** The counts at the o-th place where headers are looked for. */
  function CountsAt(b: seq<byte>, o: nat): (byte, byte) {
    PlainCounts(Range(b, HeaderOffset(|b|, o), HEADER_SIZE))
  }

  /** The counts that `open` works with: the first at the three places that are not both zero. */
  function Counts(b: seq<byte>): (byte, byte) {
    if CountsAt(b, 0) != (0, 0) then CountsAt(b, 0)
    else if CountsAt(b, 1) != (0, 0) then CountsAt(b, 1)
    else CountsAt(b, 2)
  }

  method ReadCounts(b: seq<byte>) returns (nPw: byte, nKey: byte)
    ensures (nPw, nKey) == Counts(b)
  {
    nPw, nKey := 0, 0;
    var o := 0;
    while o < 3 && nPw == 0 && nKey == 0
      invariant o <= 3 && (o == 0 ==> nPw == 0 && nKey == 0)
      invariant nPw != 0 || nKey != 0 ==> Counts(b) == (nPw, nKey)
      invariant nPw == 0 && nKey == 0 ==> forall i: nat :: i < o ==> CountsAt(b, i) == (0, 0)
    {
      var raw := Range(b, HeaderOffset(|b|, o), HEADER_SIZE);
      if |raw| == HEADER_SIZE { nPw, nKey := raw[66], raw[67]; }
      assert (nPw, nKey) == CountsAt(b, o);
      o := o + 1;
    }
    if nPw == 0 && nKey == 0 { assert CountsAt(b, 0) == CountsAt(b, 1) == CountsAt(b, 2) == (0, 0); }
  }

  /** The master key that the credential recovers. */
  function Recovered(s: Suite, g: Keying, b: seq<byte>, cred: Credential): Option<(seq<byte>, CipherAlgorithm)> {
    match cred
    case ByPassword(p) => FirstPassword(s, g, b, p, 0, Counts(b).0)
    case ByKey(sk) => FirstKey(s, g, b, sk, 0, Counts(b).1)
  }

  /** Master key and metadata that the credential leads to. */
  function Found(s: Suite, g: Keying, b: seq<byte>, cred: Credential): Option<(seq<byte>, HeaderPayload)> {
    var k := Recovered(s, g, b, cred);
    if k.None? then None
    else
      var h := FirstHeader(s, b, k.value.0, 0, 0);
      if h.None? then None else Some((k.value.0, h.value))
  }

  method FindOuter(s: Suite, g: Keying, b: seq<byte>, cred: Credential) returns (r: Option<(seq<byte>, HeaderPayload)>)
    requires Ideal(s)
    ensures r == Found(s, g, b, cred)
  {
    hide FirstHeader;
    hide FirstPassword;
    hide FirstKey;
    var nPw, nKey := ReadCounts(b);
    var k;
    match cred {
      case ByPassword(p) => k := TryPwSlots(s, g, b, p, nPw);
      case ByKey(sk) => k := TryKeySlots(s, g, b, sk, nKey);
    }
    if k.None? { return None; }
    var h := FindHeader(s, b, k.value.0);
    r := if h.None? then None else Some((k.value.0, h.value));
  }

  /** The outer volume that a header describes. */
  function OuterVolume(s: Suite, master: seq<byte>, meta: HeaderPayload): Volume {
    Volume(s, master, meta.cipher, 0, meta.outerSlots, OUTER_ALLOC_SLOT, meta.containerId != Zeros(16))
  }

  /**
   `open` for an outer volume: credential, header, volume, and the root slot that the header records. Every
   header that decodes describes at least the allocation slot.
   */
  method OpenContainer(s: Suite, g: Keying, b: seq<byte>, cred: Credential, codec: Codec, state: RollbackState,
                       ghost nodes: map<nat, Node>, ghost free: seq<nat>, ghost generation: nat, ghost root: seq<byte>)
    returns (r: Result<VnmContainer, VnmError>, rootSlot: nat)
    requires Ideal(s) && Lawful(codec)
    requires var found := Found(s, g, b, cred); found.Some? ==> OUTER_ALLOC_SLOT < found.value.1.outerSlots < U64
    ensures Found(s, g, b, cred).None? ==> r == Err(AuthenticationFailed)
    ensures r.Ok? ==> fresh(r.value) && fresh(r.value.store)
    ensures r.Ok? ==> rootSlot == Found(s, g, b, cred).value.1.rootSlot
    ensures var found := Found(s, g, b, cred);
            found.Some? ==>
              var meta := found.value.1;
              var vol := OuterVolume(s, found.value.0, meta);
              Persisted(vol, codec, b, nodes, free, generation, root) ==>
                && (r.Ok? <==> (vol.hasGeneration ==> Consistent(state.entries, meta.containerId, generation)))
                && (r.Err? ==> meta.containerId in state.entries
                               && r.error == RollbackDetected(generation, state.entries[meta.containerId]))
                && (r.Ok? ==>
                    r.value.Valid() && r.value.nodes == nodes && r.value.lost == {} && r.value.store.vol == vol
                              && r.value.store.file == b && r.value.store.free == free && r.value.codec == codec)
  {
    hide Found;
    hide Persisted;
    hide AllocIntact;
    hide RootCurrent;
    var found := FindOuter(s, g, b, cred);
    if found.None? { return Err(AuthenticationFailed), 0; }
    var (k, meta) := found.value;
    rootSlot := meta.rootSlot;
    var vol := OuterVolume(s, k, meta);
    if Persisted(vol, codec, b, nodes, free, generation, root) {
      PersistedParts(vol, codec, b, nodes, free, generation, root);
    }
    r := OpenVolume(b, vol, codec, meta.containerId, state, nodes, free, generation, root);
  }

  // ── Who opens what ────────────────────────────────────────────────────────

  predicate IsRecipient(g: Keying, pw: seq<Password>, keys: seq<PublicKey>, cred: Credential) {
    match cred
    case ByPassword(p) => p in pw
    case ByKey(sk) => g.publicKey(sk) in keys
  }

  /** Why a credential might not lead to exactly what it should. */
  datatype Doubt = InSlots(mistake: Mistake) | InHeaders(place: nat, cipher: nat)

  ghost predicate IsDoubt(x: Secrets, b: seq<byte>, pw: seq<Password>, keys: seq<PublicKey>, cred: Credential, o: nat,
                          d: Doubt) {
    match d
    case InSlots(m) =>
      (match cred
       case ByPassword(p) => PasswordMistake(x, b, pw, p, m)
       case ByKey(sk) => KeyMistake(x, b, keys, sk, m))
    case InHeaders(i, j) => EarlierHeader(x, b, o, CipherIndex(x.cipher), (i, j))
  }

  /** The plaintext counts of a sound container file are the numbers of its recipients. */
  lemma CountsOfTable(x: Secrets, b: seq<byte>, meta: HeaderPayload, pw: seq<Password>, keys: seq<PublicKey>)
    requires Ideal(x.suite) && TableOk(x, b, meta, pw, keys)
    ensures CountsAt(b, 0) == (|pw|, |keys|)
    ensures pw != [] || keys != [] ==> Counts(b) == (|pw|, |keys|)
  {
    hide IsHeader;
    hide PasswordsOk;
    hide KeysOk;
    ReadPlain(x, meta, Primary(b));
  }

  /**
   In a sound container file a credential leads to the master key and the metadata exactly if it is a
   current recipient's, or there is a witness: a key collision, a double sealing, or a second header.
   */
  lemma RecipientFinds(x: Secrets, b: seq<byte>, meta: HeaderPayload, pw: seq<Password>, keys: seq<PublicKey>,
                       cred: Credential)
    returns (w: Option<Doubt>)
    requires Ideal(x.suite) && LawfulKeying(x.keying) && |x.master| == 32
    requires TableOk(x, b, meta, pw, keys) && (pw != [] || keys != [])
    ensures w.None? ==>
              Found(x.suite, x.keying, b, cred) ==
                if IsRecipient(x.keying, pw, keys, cred) then Some((x.master, meta)) else None
    ensures w.Some? ==> IsDoubt(x, b, pw, keys, cred, 0, w.value)
  {
    hide IsHeader;
    hide PasswordsOk;
    hide KeysOk;
    hide FirstHeader;
    hide FirstPassword;
    hide FirstKey;
    hide EarlierHeader;
    hide PasswordMistake;
    hide KeyMistake;
    CountsOfTable(x, b, meta, pw, keys);
    w := SlotsFind(x, b, pw, meta.kdfProfile, keys, cred);
    if w.Some? || !IsRecipient(x.keying, pw, keys, cred) { return; }
    var h := CopyFound(x, b, meta, 0);
    w := if h.None? then None else Some(InHeaders(h.value.0, h.value.1));
  }

  lemma SlotsFind(x: Secrets, b: seq<byte>, pw: seq<Password>, profile: byte, keys: seq<PublicKey>, cred: Credential)
    returns (w: Option<Doubt>)
    requires Ideal(x.suite) && LawfulKeying(x.keying) && |x.master| == 32
    requires PasswordsOk(x, b, pw, profile) && KeysOk(x, b, keys) && Counts(b) == (|pw|, |keys|)
    ensures w.None? ==>
              var k := Recovered(x.suite, x.keying, b, cred);
              if IsRecipient(x.keying, pw, keys, cred) then k.Some? && k.value.0 == x.master else k.None?
    ensures w.Some? ==> w.value.InSlots? && IsDoubt(x, b, pw, keys, cred, 0, w.value)
  {
    hide PasswordsOk;
    hide KeysOk;
    hide FirstPassword;
    hide FirstKey;
    hide Counts;
    hide PasswordMistake;
    hide KeyMistake;
    var m: Option<Mistake>;
    assert pw[0..] == pw && keys[0..] == keys;
    match cred {
      case ByPassword(p) => m := PasswordRecovers(x, b, pw, profile, p, 0);
      case ByKey(sk) => m := KeyRecovers(x, b, keys, sk, 0);
    }
    w := if m.None? then None else Some(InSlots(m.value));
  }

  // ── A damaged first header ────────────────────────────────────────────────

  /** With the first counts wiped, the counts are the backup's, except that a hidden volume's header comes first. */
  lemma CountsOfBackup(x: Secrets, b: seq<byte>, b': seq<byte>, meta: HeaderPayload, pw: seq<Password>,
                       keys: seq<PublicKey>)
    requires Ideal(x.suite) && TableOk(x, b, meta, pw, keys) && (pw != [] || keys != [])
    requires OnlyStartChanged(b, b') && CountsAt(b', 0) == (0, 0)
    ensures Counts(b') == if BackupPlace(|b|) == 1 || CountsAt(b, 1) == (0, 0) then (|pw|, |keys|) else CountsAt(b, 1)
  {
    hide IsHeader;
    hide PasswordsOk;
    hide KeysOk;
    BackupBounds(|b|);
    CopiesAreLookedAt(b);
    ReadPlain(x, meta, Backup(b));
    assert CountsAt(b', BackupPlace(|b|)) == (|pw|, |keys|);
    assert CountsAt(b', 1) == CountsAt(b, 1);
  }

  /** Without a hidden volume, every recipient opens a container file whose first header was wiped. */
  lemma RecipientFindsBackup(x: Secrets, b: seq<byte>, b': seq<byte>, meta: HeaderPayload,
                             pw: seq<Password>, keys: seq<PublicKey>, cred: Credential)
    returns (w: Option<Doubt>)
    requires Ideal(x.suite) && LawfulKeying(x.keying) && |x.master| == 32
    requires TableOk(x, b, meta, pw, keys) && OnlyStartChanged(b, b') && CountsAt(b', 0) == (0, 0)
    requires BackupPlace(|b|) == 1 && (pw != [] || keys != [])
    ensures w.None? ==>
              Found(x.suite, x.keying, b', cred) ==
                if IsRecipient(x.keying, pw, keys, cred) then Some((x.master, meta)) else None
    ensures w.Some? ==> IsDoubt(x, b', pw, keys, cred, 1, w.value)
  {
    hide IsHeader;
    hide IsPasswordSlot;
    hide IsKeySlot;
    hide FirstHeader;
    hide FirstPassword;
    hide FirstKey;
    hide EarlierHeader;
    hide PasswordMistake;
    hide KeyMistake;
    CountsOfBackup(x, b, b', meta, pw, keys);
    forall i | 0 <= i < |pw| ensures PwSlotAt(b', i) == PwSlotAt(b, i) {
      SlotsApart(i, 0);
    }
    forall j | 0 <= j < |keys| ensures KeySlotAt(b', j) == KeySlotAt(b, j) {
      SlotsApart(0, j);
    }
    w := SlotsFind(x, b', pw, meta.kdfProfile, keys, cred);
    if w.Some? || !IsRecipient(x.keying, pw, keys, cred) { return; }
    var h := BackupServes(x, b, b', meta, pw, keys);
    w := if h.None? then None else Some(InHeaders(h.value.0, h.value.1));
  }

  // ── Creating ──────────────────────────────────────────────────────────────

  const MIN_SIZE: nat := DATA_AREA_OFFSET + 16 * SLOT_SIZE + 512

  function TailSize(hiddenSize: Option<nat>): nat {
    if hiddenSize.Some? then 1024 else 512
  }

  /** The bytes that this many data slots take. */
  function Room(slots: nat): nat {
    slots * SLOT_SIZE
  }

  /** The size of a container file with this many data slots in all. */
  function FileSize(slots: nat, hiddenSize: Option<nat>): nat {
    DATA_AREA_OFFSET + Room(slots) + TailSize(hiddenSize)
  }

  /** No hidden slots without a hidden volume, else the fewest that hold it, two at least. */
  ghost predicate FewestHidden(hiddenSize: Option<nat>, hidden: nat) {
    match hiddenSize
    case None => hidden == 0
    case Some(size) =>
      && 2 <= hidden && size <= Room(hidden)
      && forall k: nat :: 2 <= k && size <= Room(k) ==> hidden <= k
  }

  /** A layout that fills the requested size: not one slot more would fit. */
  ghost predicate Fills(total: nat, hiddenSize: Option<nat>, outer: nat, hidden: nat) {
    && FewestHidden(hiddenSize, hidden) && 2 <= outer
    && FileSize(outer + hidden, hiddenSize) <= total < FileSize(outer + hidden + 1, hiddenSize)
  }

  /** The requested size is large enough. */
  ghost predicate LargeEnough(total: nat, hiddenSize: Option<nat>) {
    total >= MIN_SIZE && exists outer: nat, hidden: nat :: Fills(total, hiddenSize, outer, hidden)
  }

  /** There is one such layout at most. */
  lemma FillsOnce(total: nat, hiddenSize: Option<nat>, outer: nat, hidden: nat, outer': nat, hidden': nat)
    requires Fills(total, hiddenSize, outer, hidden) && Fills(total, hiddenSize, outer', hidden')
    ensures outer == outer' && hidden == hidden'
  {
    if hiddenSize.Some? {
      assert hiddenSize.value <= Room(hidden) && hiddenSize.value <= Room(hidden');
    }
    var n, n' := outer + hidden, outer' + hidden';
    assert Room(n) < Room(n' + 1) && Room(n') < Room(n + 1);
  }

  /** The slots that the hidden volume gets by rounding up. */
  lemma RoundedUp(size: nat, hidden: nat)
    requires var up := (size + SLOT_SIZE - 1) / SLOT_SIZE; hidden == if up < 2 then 2 else up
    ensures FewestHidden(Some(size), hidden)
  {
  }

  /** With fewer than two slots left over, no layout fills the size. */
  lemma NothingFills(total: nat, hiddenSize: Option<nat>, slots: nat, hidden: nat)
    requires FewestHidden(hiddenSize, hidden) && total < FileSize(slots + 1, hiddenSize) && slots < hidden + 2
    ensures !exists o: nat, h: nat :: Fills(total, hiddenSize, o, h)
  {
    forall o: nat, h: nat ensures !Fills(total, hiddenSize, o, h) {
      assert FewestHidden(hiddenSize, h) ==> hidden <= h;
    }
  }

  /**
   The data slots of the outer and of the hidden volume: the one layout that fills the requested size, or an
   error exactly when there is none.
   */
  function SlotCounts(total: nat, hiddenSize: Option<nat>): (r: Result<(nat, nat), VnmError>)
    ensures r.Ok? <==> LargeEnough(total, hiddenSize)
    ensures r.Ok? ==> Fills(total, hiddenSize, r.value.0, r.value.1)
    ensures r.Err? ==> r.error == SizeTooSmall(MIN_SIZE)
  {
    if total < MIN_SIZE then Err(SizeTooSmall(MIN_SIZE))
    else
      var slots := (total - (DATA_AREA_OFFSET + TailSize(hiddenSize))) / SLOT_SIZE;
      match hiddenSize
      case None =>
        assert Fills(total, hiddenSize, slots, 0);
        Ok((slots, 0))
      case Some(size) =>
        var up := (size + SLOT_SIZE - 1) / SLOT_SIZE;
        var h := if up < 2 then 2 else up;
        RoundedUp(size, h);
        if slots < h + 2 then
          NothingFills(total, hiddenSize, slots, h);
          Err(SizeTooSmall(MIN_SIZE))
        else
          assert Fills(total, hiddenSize, slots - h, h);
          Ok((slots - h, h))
  }

  /** The metadata that `create` records, beside label, time and identity. */
  function NewMeta(payload: HeaderPayload, outerSlots: nat, outerPassword: Password): HeaderPayload {
    payload.(numPasswordSlots := if outerPassword != [] then 1 else 0, numKeySlots := 0,
             outerSlots := outerSlots, hiddenStart := 0, rootSlot := OUTER_ROOT_SLOT)
  }

  function FirstRecipients(outerPassword: Password): seq<Password> {
    if outerPassword != [] then [outerPassword] else []
  }

  /** The two texts that `create` writes fit their slots: the empty root directory and the allocation block. */
  predicate CreateFits(vol: Volume, codec: Codec)
    requires vol.Valid()
  {
    vol.Fits(|codec.encode(Directory([]))|) && vol.Fits(MinAllocLen(true) + (vol.Count() + 7) / 8)
  }

  /**
   `create`, as far as the outer volume goes: sizes, headers, first recipient, empty root directory, baseline.
   The file has the largest size that its slots can fill, and every free slot holds random bytes.
   */
  method CreateContainer(x: Secrets, total: nat, hiddenSize: Option<nat>, payload: HeaderPayload,
                         outerPassword: Password, codec: Codec, state: RollbackState, at: nat)
    returns (r: Result<VnmContainer, VnmError>, meta: HeaderPayload)
    requires Ideal(x.suite) && LawfulKeying(x.keying) && |x.master| == 32 && Lawful(codec)
    requires payload.WellFormed() && payload.cipher == x.cipher && payload.containerId != Zeros(16) && total < U64
    modifies state
    ensures !LargeEnough(total, hiddenSize) ==> r == Err(SizeTooSmall(MIN_SIZE))
    ensures forall outer: nat, hidden: nat :: total >= MIN_SIZE && Fills(total, hiddenSize, outer, hidden) ==>
              && meta == NewMeta(payload, outer, outerPassword) && OuterVolume(x.suite, x.master, meta).Valid()
              && (r.Ok? <==> CreateFits(OuterVolume(x.suite, x.master, meta), codec))
              && (r.Ok? ==> |r.value.store.file| == FileSize(outer + hidden, hiddenSize))
    ensures r.Ok? ==>
              && fresh(r.value) && fresh(r.value.store) && LargeEnough(total, hiddenSize)
              && IsCreated(x, meta, FirstRecipients(outerPassword), codec, r.value)
              && state.entries == old(state.entries)[meta.containerId := 1]
    ensures r.Err? ==> state.entries == old(state.entries)
  {
    hide TableOk;
    hide Persisted;
    hide VnmContainer.Valid;
    hide ContainerFile.Valid;
    hide Fills;
    hide StaysRandom;
    hide HeaderFrom;
    hide PasswordSlotFrom;
    hide OnlySlots;
    hide OtherSlotsKept;
    hide HoldsCoins;
    hide Ideal;
    meta := payload;
    var counts := SlotCounts(total, hiddenSize);
    if counts.Err? { return Err(counts.error), meta; }
    var (outerSlots, hiddenSlots) := counts.value;
    FillsBounds(total, hiddenSize, outerSlots, hiddenSlots);
    meta := NewMeta(payload, outerSlots, outerPassword);
    var file := new ContainerFile.Create(x, outerSlots + hiddenSlots, hiddenSize.Some?, meta, outerPassword, at);
    var vol := OuterVolume(x.suite, x.master, meta);
    TailRecovered(outerSlots + hiddenSlots, hiddenSize.Some?);
    FileIsSound(file);
    assert vol.Valid();
    r := CreateVolume(file.bytes, vol, codec, OUTER_ROOT_SLOT, meta.containerId, state);
    if r.Ok? {
      SameLength(file.bytes, r.value.store.file, outerSlots);
      SlotsKeepTable(x, file.bytes, r.value.store.file, outerSlots, meta, FirstRecipients(outerPassword), []);
      FreeIsRandom(x, meta, file.bytes, r.value, at, if outerPassword != [] then 1 else 0);
    }
  }

  lemma SameLength(b: seq<byte>, b': seq<byte>, limit: nat)
    requires OnlySlots(b, b', limit)
    ensures |b'| == |b|
  {
  }

  /** The one layout, and what follows from its inequalities. */
  lemma FillsBounds(total: nat, hiddenSize: Option<nat>, outer: nat, hidden: nat)
    requires Fills(total, hiddenSize, outer, hidden) && total < U64
    ensures 2 <= outer < U64
    ensures forall o: nat, h: nat :: Fills(total, hiddenSize, o, h) ==> o == outer && h == hidden
  {
    forall o: nat, h: nat | Fills(total, hiddenSize, o, h) ensures o == outer && h == hidden {
      FillsOnce(total, hiddenSize, outer, hidden, o, h);
    }
  }

  /** The slots that `create` has not written are as the file was filled at first. */
  lemma FreeIsRandom(x: Secrets, meta: HeaderPayload, bytes: seq<byte>, c: VnmContainer, at: nat, n: nat)
    requires c.Valid() && c.nodes == map[OUTER_ROOT_SLOT := Directory([])]
    requires c.store.vol == OuterVolume(x.suite, x.master, meta) && LayoutOk(|bytes|) && n <= MAX_PASSWORD_SLOTS
    requires StaysRandom(x.suite.Coins(at, |bytes|), bytes, n) && SlotOffset(meta.outerSlots) <= BackupOffset(|bytes|)
    requires OtherSlotsKept(bytes, c.store.file, {OUTER_ROOT_SLOT, OUTER_ALLOC_SLOT})
    ensures forall s :: s in c.store.free ==> HoldsCoins(c.store.vol, c.store.file, s)
  {
    hide NodeAt;
    c.InVolume();
    BackupBounds(|bytes|);
    SlotsApart(n, 0);
    forall s | s in c.store.free ensures HoldsCoins(c.store.vol, c.store.file, s) {
      assert s in c.Free() && s !in c.nodes;
      assert SlotOffset(s) + SLOT_SIZE <= SlotOffset(meta.outerSlots);
      ghost var fill := x.suite.Coins(at, |bytes|);
      assert Range(bytes, SlotOffset(s), SLOT_SIZE) == Range(fill, SlotOffset(s), SLOT_SIZE);
      assert fill[SlotOffset(s)..SlotOffset(s) + SLOT_SIZE] == x.suite.Coins(at + SlotOffset(s), SLOT_SIZE);
      assert RawSlot(bytes, s) == Some(x.suite.Coins(at + SlotOffset(s), SLOT_SIZE));
    }
  }

  lemma FileIsSound(file: ContainerFile)
    requires file.Valid()
    ensures TableOk(file.x, file.bytes, file.meta, file.pw, file.keys)
  {
  }

  /**
   What a created container is: its file holds a sound table and, at generation 1, the outer volume with an
   empty directory in the slot recorded as the root's, and random bytes in every free slot.
   */
  ghost predicate IsCreated(x: Secrets, meta: HeaderPayload, pw: seq<Password>, codec: Codec, c: VnmContainer)
    reads c, c.store
  {
    && c.Valid() && c.lost == {} && c.codec == codec && c.nodes == map[meta.rootSlot := Directory([])]
    && c.store.vol == OuterVolume(x.suite, x.master, meta)
    && TableOk(x, c.store.file, meta, pw, [])
    && Persisted(c.store.vol, codec, c.store.file, c.nodes, c.store.free, 1, ZERO_ROOT)
    && forall s :: s in c.store.free ==> HoldsCoins(c.store.vol, c.store.file, s)
  }

  /**
   A container created with a password, closed and opened with a password: creation fails exactly when the
   size or one of the first two slots is too small; then the right password gives the volume as it was
   created, any other is refused, or there is a witness why not.
   */
  method CreateThenOpen(x: Secrets, total: nat, hiddenSize: Option<nat>, payload: HeaderPayload,
                        outerPassword: Password, password: Password, codec: Codec, state: RollbackState, at: nat)
    returns (c: Result<VnmContainer, VnmError>, r: Result<VnmContainer, VnmError>, rootSlot: nat,
             ghost w: Option<Doubt>)
    requires Ideal(x.suite) && LawfulKeying(x.keying) && |x.master| == 32 && Lawful(codec) && outerPassword != []
    requires payload.WellFormed() && payload.cipher == x.cipher && payload.containerId != Zeros(16) && total < U64
    modifies state
    ensures !LargeEnough(total, hiddenSize) ==> c == Err(SizeTooSmall(MIN_SIZE))
    ensures forall outer: nat, hidden: nat :: total >= MIN_SIZE && Fills(total, hiddenSize, outer, hidden) ==>
              var meta := NewMeta(payload, outer, outerPassword);
              && OuterVolume(x.suite, x.master, meta).Valid()
              && (c.Ok? <==> CreateFits(OuterVolume(x.suite, x.master, meta), codec))
              && (c.Ok? ==>
                    && |c.value.store.file| == FileSize(outer + hidden, hiddenSize)
                    && IsCreated(x, meta, [outerPassword], codec, c.value))
    ensures c.Err? ==> r == c && w.None? && state.entries == old(state.entries)
    ensures c.Ok? ==>
              && fresh(c.value) && fresh(c.value.store) && LargeEnough(total, hiddenSize)
              && state.entries == old(state.entries)[payload.containerId := 1]
    ensures c.Ok? && w.None? ==>
              (r.Ok? <==> password == outerPassword) && (r.Err? ==> r.error == AuthenticationFailed)
    ensures c.Ok? && r.Ok? && w.None? ==>
              && r.value.Valid() && r.value.nodes == c.value.nodes && r.value.lost == {}
              && r.value.store.file == c.value.store.file && r.value.store.free == c.value.store.free
              && r.value.nodes == map[rootSlot := Directory([])]
    ensures w.Some? ==> c.Ok? && IsDoubt(x, c.value.store.file, [outerPassword], [], ByPassword(password), 0, w.value)
  {
    hide TableOk;
    hide Persisted;
    hide VnmContainer.Valid;
    hide Found;
    hide IsDoubt;
    hide CreateFits;
    hide Fills;
    hide HoldsCoins;
    rootSlot := 0;
    var meta;
    c, meta := CreateContainer(x, total, hiddenSize, payload, outerPassword, codec, state, at);
    w := None;
    if c.Err? { return c, c, rootSlot, w; }
    ghost var outer: nat, hidden: nat :| Fills(total, hiddenSize, outer, hidden);
    var bytes := c.value.store.file;
    w := RecipientFinds(x, bytes, meta, [outerPassword], [], ByPassword(password));
    var found := FindOuter(x.suite, x.keying, bytes, ByPassword(password));
    if found.None? || !(OUTER_ALLOC_SLOT < found.value.1.outerSlots < U64) {
      FillsBounds(total, hiddenSize, outer, hidden);
      return c, Err(AuthenticationFailed), rootSlot, w;
    }
    r, rootSlot := OpenContainer(x.suite, x.keying, bytes, ByPassword(password), codec, state,
                       c.value.nodes, c.value.store.free, 1, ZERO_ROOT);
  }
}
