/**
 The slot store of vnmcore/src/storage/slot_store.rs: a flat file of encrypted 32 KiB slots that
 behaves as a map from slot to plaintext, its free list and generation saved in the allocation
 slot, and a Merkle root over the used slots that is recomputed lazily behind a dirty flag.
 */
module SlotStore {
  import opened Wrappers
  import opened Bytes
  import opened Cipher
  import opened Layout
  import opened Merkle
  import FreeList

  const ALLOC_HEADER_LEN: nat := 8 + 8 + 32

  /** What never changes about an opened volume. */
  datatype Volume = Volume(suite: Suite, masterKey: seq<byte>, cipher: CipherAlgorithm,
                           slotStart: nat, slotLimit: nat, allocSlot: nat, hasGeneration: bool)
  {
    ghost predicate Valid() {
      && Ideal(suite)
      && slotStart <= allocSlot < slotLimit < U64
    }

    function Count(): nat
      requires slotStart <= slotLimit
    {
      slotLimit - slotStart
    }

    predicate IsDataSlot(s: nat) {
      slotStart <= s < slotLimit && s != allocSlot
    }

    function SlotKey(slot: nat): seq<byte> {
      suite.deriveKey("venom:slot:v1", masterKey + Le(slot, 8))
    }

    /** Whether a payload of this length fits one slot: length prefix, envelope and text. */
    predicate Fits(len: nat) {
      4 + len + VnmbOverhead(cipher) <= SLOT_SIZE
    }
  }

  /** The slot holds nothing but a buffer of random bytes. */
  ghost predicate HoldsCoins(v: Volume, file: seq<byte>, slot: nat) {
    exists at :: RawSlot(file, slot) == Some(v.suite.Coins(at, SLOT_SIZE))
  }

  /** What reading `slot` from the file yields. */
  function ReadSlot(v: Volume, file: seq<byte>, slot: nat): Result<seq<byte>, VnmError> {
    var raw := RawSlot(file, slot);
    if raw.None? then Err(ShortRead) else
    var len := FromLe(raw.value[..4]);
    if len < 36 || 4 + len > SLOT_SIZE then Err(CorruptedSlot(slot)) else
    var plain := OpenBlock(v.suite, v.SlotKey(slot), v.cipher, Le(slot, 8), raw.value[4..4 + len]);
    if plain.Ok? then plain else Err(CorruptedSlot(slot))
  }

  /** The 32 KiB image of a sealed block: length prefix, block, zero padding. */
  function SlotImage(block: seq<byte>): (image: seq<byte>)
    requires 4 + |block| <= SLOT_SIZE
    ensures |image| == SLOT_SIZE
  {
    Le(|block|, 4) + block + Zeros(SLOT_SIZE - 4 - |block|)
  }

  /** The image of a text sealed into a slot, its nonces drawn from position `at` of the generator's stream on. */
  function TextImage(v: Volume, slot: nat, at: nat, text: seq<byte>): (image: seq<byte>)
    requires Ideal(v.suite) && v.Fits(|text|)
    ensures |image| == SLOT_SIZE
  {
    var nonces := v.suite.Coins(at, NonceSectionLen(v.cipher));
    SealedLength(v.suite, v.SlotKey(slot), v.cipher, Le(slot, 8), nonces, text);
    SlotImage(Sealed(v.suite, v.SlotKey(slot), v.cipher, Le(slot, 8), nonces, text))
  }

  /** A slot holding a sealing of `text` reads back as `text`, except an empty text under Triple. */
  lemma ImageReads(v: Volume, file: seq<byte>, slot: nat, nonces: seq<byte>, text: seq<byte>)
    requires Ideal(v.suite) && v.Fits(|text|)
    requires |nonces| == NonceSectionLen(v.cipher)
    requires |Sealed(v.suite, v.SlotKey(slot), v.cipher, Le(slot, 8), nonces, text)| == |text| + VnmbOverhead(v.cipher)
    requires RawSlot(file, slot) ==
               Some(SlotImage(Sealed(v.suite, v.SlotKey(slot), v.cipher, Le(slot, 8), nonces, text)))
    ensures ReadSlot(v, file, slot) == if v.cipher.Triple? && text == [] then Err(CorruptedSlot(slot)) else Ok(text)
  {
    var block := Sealed(v.suite, v.SlotKey(slot), v.cipher, Le(slot, 8), nonces, text);
    var raw := SlotImage(block);
    assert raw[..4] == Le(|block|, 4) && raw[4..4 + |block|] == block;
    Le32RoundTrip(|block|);
    SealedOpens(v.suite, v.SlotKey(slot), v.cipher, Le(slot, 8), nonces, text);
  }

  /** Every byte outside the slot keeps its value, so every other slot, header and recipient byte does. */
  ghost predicate OnlySlotChanged(f: seq<byte>, f': seq<byte>, slot: nat) {
    && |f'| >= |f|
    && (SlotOffset(slot) + SLOT_SIZE <= |f| ==> |f'| == |f|)
    && (forall j :: 0 <= j < |f| && !(SlotOffset(slot) <= j < SlotOffset(slot) + SLOT_SIZE) ==> f'[j] == f[j])
    && (forall t :: t != slot && RawSlot(f, t).Some? ==> RawSlot(f', t) == RawSlot(f, t))
  }

  lemma OtherSlotsUnchanged(file: seq<byte>, slot: nat, image: seq<byte>)
    requires |image| == SLOT_SIZE
    ensures OnlySlotChanged(file, Overwrite(file, SlotOffset(slot), image), slot)
  {
    OverwriteReads(file, SlotOffset(slot), image);
    forall t | t != slot && RawSlot(file, t).Some?
      ensures RawSlot(Overwrite(file, SlotOffset(slot), image), t) == RawSlot(file, t)
    {
      assert SlotOffset(t) + SLOT_SIZE <= SlotOffset(slot) || SlotOffset(slot) + SLOT_SIZE <= SlotOffset(t);
      OverwriteElsewhere(file, SlotOffset(slot), image, SlotOffset(t), SlotOffset(t) + SLOT_SIZE);
    }
  }

  /** Only bytes of the first `limit` data slots may differ. */
  ghost predicate OnlySlots(b: seq<byte>, b': seq<byte>, limit: nat) {
    && |b'| == |b| && SlotOffset(limit) <= |b|
    && forall j :: 0 <= j < |b| && (j < DATA_AREA_OFFSET || SlotOffset(limit) <= j) ==> b'[j] == b[j]
  }

  lemma OneSlot(b: seq<byte>, b': seq<byte>, slot: nat, limit: nat)
    requires OnlySlotChanged(b, b', slot) && slot < limit && SlotOffset(limit) <= |b|
    ensures OnlySlots(b, b', limit)
  {
    assert SlotOffset(slot) + SLOT_SIZE <= SlotOffset(limit);
  }

  lemma OnlySlotsTwice(b: seq<byte>, mid: seq<byte>, b': seq<byte>, limit: nat)
    requires OnlySlots(b, mid, limit) && OnlySlots(mid, b', limit)
    ensures OnlySlots(b, b', limit)
  {
  }

  // ── Used slots ────────────────────────────────────────────────────────────

  /** Ascending data slots from `from` on that are not free. */
  function UsedFrom(v: Volume, free: set<nat>, from: nat): (u: seq<nat>)
    ensures forall i :: 0 <= i < |u| ==> from <= u[i] < v.slotLimit
    ensures forall s :: s in u <==> from <= s < v.slotLimit && s != v.allocSlot && s !in free
    decreases v.slotLimit - from
  {
    if from >= v.slotLimit then []
    else (if from != v.allocSlot && from !in free then [from] else []) + UsedFrom(v, free, from + 1)
  }

  function UsedSlots(v: Volume, free: seq<nat>): (u: seq<nat>)
    ensures forall s :: s in u <==> v.IsDataSlot(s) && s !in free
  {
    var u := UsedFrom(v, FreeList.Elements(free), v.slotStart);
    assert forall s :: s in u <==> v.slotStart <= s < v.slotLimit && s != v.allocSlot && s !in FreeList.Elements(free);
    u
  }

  /** Files that agree on the listed slots have the same root. */
  lemma RootFrame(h: Hash, f: seq<byte>, f': seq<byte>, slots: seq<nat>)
    requires Readable(f, slots)
    requires forall i :: 0 <= i < |slots| ==> RawSlot(f', slots[i]) == RawSlot(f, slots[i])
    ensures Readable(f', slots) && Root(h, f', slots) == Root(h, f, slots)
  {
    assert Messages(f', slots) == Messages(f, slots);
  }

  // ── Allocation block ──────────────────────────────────────────────────────

  datatype AllocBlock = AllocBlock(n: nat, generation: nat, root: seq<byte>, bitmap: seq<byte>)

  function EncodeAlloc(hasGeneration: bool, a: AllocBlock): seq<byte> {
    Le(a.n, 8) + (if hasGeneration then Le(a.generation, 8) + a.root else []) + a.bitmap
  }

  function MinAllocLen(hasGeneration: bool): nat {
    if hasGeneration then ALLOC_HEADER_LEN else 8
  }

  function ParseAlloc(hasGeneration: bool, data: seq<byte>): AllocBlock
    requires |data| >= MinAllocLen(hasGeneration)
  {
    if hasGeneration then AllocBlock(FromLe(data[..8]), FromLe(data[8..16]), data[16..48], data[48..])
    else AllocBlock(FromLe(data[..8]), 0, ZERO_ROOT, data[8..])
  }

  lemma AllocRoundTrip(hasGeneration: bool, a: AllocBlock)
    requires a.n < U64 && a.generation < U64 && |a.root| == 32
    requires !hasGeneration ==> a.generation == 0 && a.root == ZERO_ROOT
    ensures |EncodeAlloc(hasGeneration, a)| >= MinAllocLen(hasGeneration)
    ensures ParseAlloc(hasGeneration, EncodeAlloc(hasGeneration, a)) == a
  {
    var d := EncodeAlloc(hasGeneration, a);
    Le64RoundTrip(a.n);
    Le64RoundTrip(a.generation);
    assert d[..8] == Le(a.n, 8);
    if hasGeneration {
      assert d[8..16] == Le(a.generation, 8) && d[16..48] == a.root && d[48..] == a.bitmap;
    } else {
      assert d[8..] == a.bitmap;
    }
  }

  /** The allocation slot on disk holds this bitmap of the free list, this generation and this root. */
  ghost predicate SavedAs(v: Volume, file: seq<byte>, free: seq<nat>, generation: nat, root: seq<byte>,
                          bitmap: seq<byte>)
    requires v.Valid()
  {
    && ReadSlot(v, file, v.allocSlot) ==
      Ok(EncodeAlloc(v.hasGeneration, AllocBlock(v.Count(), generation, root, bitmap)))
    && FreeList.Encodes(bitmap, free, v.slotStart, v.Count())
  }

  /** The allocation slot on disk records this free list, generation and root. */
  ghost predicate Saved(v: Volume, file: seq<byte>, free: seq<nat>, generation: nat, root: seq<byte>)
    requires v.Valid()
  {
    exists bitmap :: SavedAs(v, file, free, generation, root, bitmap)
  }

  /** What a mount takes from an allocation block, whoever wrote it. */
  ghost predicate TakenFrom(v: Volume, data: seq<byte>, free: seq<nat>, generation: nat, root: seq<byte>)
    requires |data| >= MinAllocLen(v.hasGeneration)
  {
    var a := ParseAlloc(v.hasGeneration, data);
    && generation == a.generation && root == a.root && FreeList.StrictlyDescending(free)
    && forall x :: x in free <==> v.slotStart <= x < v.slotStart + a.n && FreeList.BitAt(a.bitmap, x - v.slotStart)
  }

  /** Well-formed free list of a volume. */
  ghost predicate FreeOk(v: Volume, free: seq<nat>) {
    && FreeList.StrictlyDescending(free)
    && forall x :: x in free ==> v.IsDataSlot(x)
  }

  /** A stored root that the check at open accepts: not yet computed, or current. */
  ghost predicate RootCurrent(v: Volume, file: seq<byte>, free: seq<nat>, root: seq<byte>) {
    root == ZERO_ROOT ||
    (Readable(file, UsedSlots(v, free)) && Root(v.suite.deriveKey, file, UsedSlots(v, free)) == root)
  }

  lemma UsedReadable(v: Volume, file: seq<byte>, free: seq<nat>)
    requires SlotOffset(v.slotLimit) <= |file|
    ensures Readable(file, UsedSlots(v, free))
  {
    var u := UsedSlots(v, free);
    forall i | 0 <= i < |u| ensures RawSlot(file, u[i]).Some? {
      assert u[i] in u;
    }
  }

  lemma RootLength(h: Hash, file: seq<byte>, slots: seq<nat>)
    requires Digests(h) && Readable(file, slots)
    ensures |Root(h, file, slots)| == 32
  {
    if slots != [] {
      var d := LeafHashes(h, Messages(file, slots));
      HashOfBuild(h, Messages(file, slots));
      HashLength(h, Build(Messages(file, slots)));
    }
  }

  /** A saved allocation slot parses back to what was saved. */
  lemma SavedParses(v: Volume, file: seq<byte>, free: seq<nat>, generation: nat, root: seq<byte>)
    requires v.Valid() && Saved(v, file, free, generation, root)
    requires generation < U64 && |root| == 32
    requires !v.hasGeneration ==> generation == 0 && root == ZERO_ROOT
    ensures var data := ReadSlot(v, file, v.allocSlot);
            && data.Ok? && |data.value| >= MinAllocLen(v.hasGeneration)
            && var a := ParseAlloc(v.hasGeneration, data.value);
            && a.n == v.Count() && a.generation == generation && a.root == root
            && FreeList.Encodes(a.bitmap, free, v.slotStart, v.Count())
  {
    var bitmap :| SavedAs(v, file, free, generation, root, bitmap);
    AllocRoundTrip(v.hasGeneration, AllocBlock(v.Count(), generation, root, bitmap));
  }

  /** Writing the encoded allocation block saves it. */
  lemma AllocWriteSaves(v: Volume, f: seq<byte>, f': seq<byte>, free: seq<nat>, generation: nat, root: seq<byte>,
                        bitmap: seq<byte>)
    requires v.Valid() && OnlySlotChanged(f, f', v.allocSlot)
    requires SavedAs(v, f', free, generation, root, bitmap)
    ensures Saved(v, f', free, generation, root)
  {
  }

  /** The Merkle root of the slots in use. */
  ghost predicate IsRoot(v: Volume, file: seq<byte>, free: seq<nat>, root: seq<byte>) {
    Readable(file, UsedSlots(v, free)) && root == Root(v.suite.deriveKey, file, UsedSlots(v, free))
  }

  /** The allocation slot is never a leaf, so rewriting it leaves a root the root and a current one current. */
  lemma AllocWriteKeepsRoot(v: Volume, f: seq<byte>, f': seq<byte>, free: seq<nat>, root: seq<byte>)
    requires OnlySlotChanged(f, f', v.allocSlot)
    ensures IsRoot(v, f, free, root) ==> IsRoot(v, f', free, root)
    ensures RootCurrent(v, f, free, root) ==> RootCurrent(v, f', free, root)
  {
    var u := UsedSlots(v, free);
    if Readable(f, u) {
      forall i | 0 <= i < |u| ensures RawSlot(f', u[i]) == RawSlot(f, u[i]) {
        assert u[i] in u && RawSlot(f, u[i]).Some?;
      }
      RootFrame(v.suite.deriveKey, f, f', u);
    }
  }

  class Store {
    const vol: Volume
    var file: seq<byte>
    var free: seq<nat>
    var generation: nat
    var cachedRoot: seq<byte>
    var merkleDirty: bool
    /** How many bytes of the random generator's stream have been drawn. */
    var drawn: nat

    ghost predicate Valid()
      reads this
    {
      && vol.Valid()
      && FreeOk(vol, free)
      && generation < U64
      && |cachedRoot| == 32
      && SlotOffset(vol.slotLimit) <= |file|
    }

    /** The cached root is marked stale, or it is the root of the used slots as they are now. */
    ghost predicate RootFresh()
      reads this
    {
      merkleDirty || RootCurrent(vol, file, free, cachedRoot)
    }

    /** The root an allocation block can hold: legacy volumes store none. */
    function StoredRoot(): seq<byte>
      reads this
    {
      if vol.hasGeneration then cachedRoot else ZERO_ROOT
    }

    /** The generator is wherever the program has taken it before. */
    constructor (file: seq<byte>, vol: Volume)
      ensures this.vol == vol && this.file == file
      ensures free == [] && generation == 0 && cachedRoot == ZERO_ROOT && !merkleDirty
    {
      this.vol := vol;
      this.file := file;
      free, generation, cachedRoot, merkleDirty := [], 0, ZERO_ROOT, false;
      drawn := *;
    }

    // ── Slot I/O ────────────────────────────────────────────────────────────

    /** Every write draws its own nonces, whether the sealed text then fits or not. */
    method Write(slot: nat, plaintext: seq<byte>) returns (r: Result<(), VnmError>)
      requires Ideal(vol.suite)
      modifies this`file, this`merkleDirty, this`drawn
      ensures r.Ok? <==> vol.Fits(|plaintext|)
      ensures r.Err? ==> r.error == TooLarge && file == old(file) && merkleDirty == old(merkleDirty)
      ensures r.Ok? ==> merkleDirty
      ensures drawn == old(drawn) + NonceSectionLen(vol.cipher)
      ensures r.Ok? ==> RawSlot(file, slot) == Some(TextImage(vol, slot, old(drawn), plaintext))
      ensures r.Ok? ==> ReadSlot(vol, file, slot) ==
                          if vol.cipher.Triple? && plaintext == [] then Err(CorruptedSlot(slot)) else Ok(plaintext)
      ensures OnlySlotChanged(old(file), file, slot)
    {
      ghost var nonces := vol.suite.Coins(drawn, NonceSectionLen(vol.cipher));
      var block := EncryptBlock(vol.suite, vol.SlotKey(slot), vol.cipher, Le(slot, 8), plaintext, drawn);
      drawn := drawn + NonceSectionLen(vol.cipher);
      if |block| + 4 > SLOT_SIZE { return Err(TooLarge); }
      var buf := Le(|block|, 4) + block + Zeros(SLOT_SIZE - 4 - |block|);
      PutSlot(slot, buf);
      ImageReads(vol, file, slot, nonces, plaintext);
      r := Ok(());
    }

    /** Seek to the slot and overwrite it; every slot written or wiped marks the root stale. */
    method PutSlot(slot: nat, buf: seq<byte>)
      requires |buf| == SLOT_SIZE
      modifies this`file, this`merkleDirty
      ensures merkleDirty
      ensures RawSlot(file, slot) == Some(buf)
      ensures OnlySlotChanged(old(file), file, slot)
    {
      ghost var before := file;
      file := Overwrite(file, SlotOffset(slot), buf);
      OverwriteReads(before, SlotOffset(slot), buf);
      OtherSlotsUnchanged(before, slot, buf);
      merkleDirty := true;
    }

    method Read(slot: nat) returns (r: Result<seq<byte>, VnmError>)
      requires Ideal(vol.suite)
      ensures r == ReadSlot(vol, file, slot)
    {
      var raw := RawSlot(file, slot);
      if raw.None? { return Err(ShortRead); }
      var buf := raw.value;
      var len := FromLe(buf[..4]);
      if len < 36 || 4 + len > SLOT_SIZE { return Err(CorruptedSlot(slot)); }
      r := DecryptBlock(vol.suite, vol.SlotKey(slot), vol.cipher, Le(slot, 8), buf[4..4 + len]);
      if r.Err? { r := Err(CorruptedSlot(slot)); }
    }

    /** The whole slot is overwritten with the next random bytes. */
    method Wipe(slot: nat)
      modifies this`file, this`merkleDirty, this`drawn
      ensures merkleDirty
      ensures RawSlot(file, slot) == Some(vol.suite.Coins(old(drawn), SLOT_SIZE)) && drawn == old(drawn) + SLOT_SIZE
      ensures OnlySlotChanged(old(file), file, slot)
    {
      var buf := vol.suite.Coins(drawn, SLOT_SIZE);
      drawn := drawn + SLOT_SIZE;
      PutSlot(slot, buf);
    }

    // ── Allocation ──────────────────────────────────────────────────────────

    /** Pop the least free slot. The dirty flag is not touched. */
    method Alloc() returns (r: Result<nat, VnmError>)
      requires Valid()
      modifies this`free
      ensures Valid()
      ensures old(free) == [] ==> r == Err(NoSpaceLeft) && free == []
      ensures old(free) != [] ==>
                && r.Ok? && vol.IsDataSlot(r.value) && r.value in old(free)
                && (forall x :: x in old(free) ==> r.value <= x)
                && r.value !in free
                && free == old(free)[..|old(free)| - 1] && r.value == old(free)[|old(free)| - 1]
                && FreeList.Elements(free) == FreeList.Elements(old(free)) - {r.value}
                && FreeList.Insert(free, r.value) == old(free)
    {
      if free == [] { return Err(NoSpaceLeft); }
      FreeList.PopThenInsert(free);
      r := Ok(free[|free| - 1]);
      free := free[..|free| - 1];
    }

    /** Wipe the slot and put it back where it belongs in the list. */
    method FreeSlot(slot: nat)
      requires Valid() && vol.IsDataSlot(slot) && slot !in free
      modifies this`file, this`merkleDirty, this`drawn, this`free
      ensures Valid() && merkleDirty
      ensures RawSlot(file, slot) == Some(vol.suite.Coins(old(drawn), SLOT_SIZE)) && drawn == old(drawn) + SLOT_SIZE
      ensures free == FreeList.Insert(old(free), slot)
      ensures FreeList.Elements(free) == FreeList.Elements(old(free)) + {slot}
      ensures OnlySlotChanged(old(file), file, slot)
    {
      Wipe(slot);
      FreeList.InsertElements(free, slot);
      FreeList.InsertDescends(free, slot);
      var pos := FreeList.Position(free, slot);
      free := free[..pos] + [slot] + free[pos..];
      assert forall x :: x in free <==> x in FreeList.Elements(free);
    }

    // ── Merkle root ─────────────────────────────────────────────────────────

    method UpdateMerkleRoot() returns (r: Result<(), VnmError>)
      requires Valid()
      modifies this`cachedRoot, this`merkleDirty
      ensures Valid() && r.Ok? && !merkleDirty
      ensures IsRoot(vol, file, free, cachedRoot)
    {
      var used := UsedSlots(vol, free);
      UsedReadable(vol, file, free);
      var root := ComputeMerkleRoot(vol.suite.deriveKey, file, used);
      RootLength(vol.suite.deriveKey, file, used);
      cachedRoot := root.value;
      merkleDirty := false;
      r := Ok(());
    }

    // ── Persistence ─────────────────────────────────────────────────────────

    method AllocData(n: nat, newGen: nat, bitmap: seq<byte>) returns (data: seq<byte>)
      requires |cachedRoot| == 32
      ensures data == EncodeAlloc(vol.hasGeneration, AllocBlock(n, newGen, StoredRoot(), bitmap))
      ensures |data| == MinAllocLen(vol.hasGeneration) + |bitmap|
    {
      data := Le(n, 8);
      if vol.hasGeneration {
        data := data + Le(newGen, 8);
        data := data + cachedRoot;
      }
      data := data + bitmap;
      assert vol.hasGeneration ==> data == Le(n, 8) + (Le(newGen, 8) + cachedRoot) + bitmap;
      assert !vol.hasGeneration ==> data == Le(n, 8) + [] + bitmap;
    }

    /** Fails exactly when the bitmap does not fit the allocation slot; the counter advances regardless. */
    method SaveFreeList() returns (r: Result<(), VnmError>)
      requires Valid()
      modifies this`file, this`merkleDirty, this`drawn, this`generation
      ensures Valid()
      ensures r.Ok? <==> vol.Fits(MinAllocLen(vol.hasGeneration) + (vol.Count() + 7) / 8)
      ensures generation == if vol.hasGeneration then (old(generation) + 1) % U64 else old(generation)
      ensures drawn == old(drawn) + NonceSectionLen(vol.cipher)
      ensures r.Err? ==> file == old(file) && merkleDirty == old(merkleDirty)
      ensures r.Ok? ==> merkleDirty
      ensures r.Ok? ==> Saved(vol, file, free, if vol.hasGeneration then generation else 0, StoredRoot())
      ensures r.Ok? && RootCurrent(vol, old(file), free, cachedRoot) ==> RootCurrent(vol, file, free, cachedRoot)
      ensures IsRoot(vol, old(file), free, cachedRoot) ==> IsRoot(vol, file, free, cachedRoot)
      ensures OnlySlotChanged(old(file), file, vol.allocSlot)
    {
      hide ReadSlot;
      hide RawSlot;
      hide TextImage;
      hide IsRoot;
      hide RootCurrent;
      hide Saved;
      hide OnlySlotChanged;
      hide FreeList.Encodes;
      var n := vol.slotLimit - vol.slotStart;
      var bitmap := FreeList.SaveBitmap(free, vol.slotStart, n);
      var newGen := 0;
      if vol.hasGeneration {
        newGen := (generation + 1) % U64;
        generation := newGen;
      }
      var data := AllocData(n, newGen, bitmap);
      ghost var before := file;
      r := Write(vol.allocSlot, data);
      if r.Ok? {
        AllocWriteSaves(vol, before, file, free, newGen, StoredRoot(), bitmap);
        AllocWriteKeepsRoot(vol, before, file, free, cachedRoot);
      }
    }

    /**
     What the block holds is taken over and checked against the root it records. A block that cannot be read,
     or is too short, frees every slot and changes nothing else.
     */
    method LoadFreeList() returns (r: Result<(), VnmError>)
      requires vol.Valid()
      modifies this`free, this`generation, this`cachedRoot
      ensures forall F: seq<nat>, g: nat, root: seq<byte> ::
                Saved(vol, file, F, g, root) && FreeOk(vol, F) && g < U64 && |root| == 32
                && (!vol.hasGeneration ==> g == 0 && root == ZERO_ROOT) ==>
                && free == F && generation == g && cachedRoot == root
                && (r.Ok? <==> RootCurrent(vol, file, F, root))
                && (r.Err? && Readable(file, UsedSlots(vol, F)) ==> r.error == MerkleIntegrityFailure)
      ensures r.Ok? && old(cachedRoot) == ZERO_ROOT ==> RootCurrent(vol, file, free, cachedRoot)
      ensures var data := ReadSlot(vol, file, vol.allocSlot);
              if data.Ok? && |data.value| >= MinAllocLen(vol.hasGeneration) then
                && TakenFrom(vol, data.value, free, generation, cachedRoot)
                && (r.Ok? <==> RootCurrent(vol, file, free, cachedRoot))
                && (r.Err? ==> r.error == if Readable(file, UsedSlots(vol, free)) then MerkleIntegrityFailure
                                          else ShortRead)
              else
                && r.Ok? && FreeOk(vol, free) && (forall x :: x in free <==> vol.IsDataSlot(x))
                && generation == old(generation) && cachedRoot == old(cachedRoot)
    {
      hide ReadSlot;
      var minLen := if vol.hasGeneration then ALLOC_HEADER_LEN else 8;
      var alloc := Read(vol.allocSlot);
      forall F: seq<nat>, g: nat, root: seq<byte> |
        Saved(vol, file, F, g, root) && g < U64 && |root| == 32
        && (!vol.hasGeneration ==> g == 0 && root == ZERO_ROOT)
        ensures alloc.Ok? && |alloc.value| >= minLen
        ensures var a := ParseAlloc(vol.hasGeneration, alloc.value);
                a.n == vol.Count() && a.generation == g && a.root == root
                && FreeList.Encodes(a.bitmap, F, vol.slotStart, vol.Count())
      {
        SavedParses(vol, file, F, g, root);
      }
      if alloc.Ok? && |alloc.value| >= minLen {
        var a := ParseAlloc(vol.hasGeneration, alloc.value);
        generation := a.generation;
        cachedRoot := a.root;
        free := FreeList.LoadBitmap(a.bitmap, vol.slotStart, a.n);
        forall F | FreeList.Encodes(a.bitmap, F, vol.slotStart, vol.Count()) && FreeOk(vol, F) && a.n == vol.Count()
          ensures free == F
        {
          FreeList.EncodedListIsUnique(a.bitmap, F, free, vol.slotStart, a.n);
        }
        if vol.hasGeneration && a.root != ZERO_ROOT {
          var used := UsedSlots(vol, free);
          var computed := ComputeMerkleRoot(vol.suite.deriveKey, file, used);
          if computed.Err? { return Err(computed.error); }
          if computed.value != a.root { return Err(MerkleIntegrityFailure); }
        }
      } else {
        RebuildFreeList();
      }
      r := Ok(());
    }

    method RebuildFreeList()
      requires vol.Valid()
      modifies this`free
      ensures FreeOk(vol, free)
      ensures forall x :: x in free <==> vol.IsDataSlot(x)
    {
      var list: seq<nat> := [];
      for s := vol.slotStart to vol.slotLimit
        invariant forall a, b :: 0 <= a < b < |list| ==> list[a] < list[b]
        invariant forall a :: 0 <= a < |list| ==> list[a] < s
        invariant forall x :: x in list <==> vol.IsDataSlot(x) && x < s
      {
        if s != vol.allocSlot { list := list + [s]; }
      }
      FreeList.SortDescends(list);
      free := FreeList.SortDescending(list);
      assert forall x :: x in free <==> x in FreeList.Elements(free);
      assert forall x :: x in list <==> x in FreeList.Elements(list);
    }
  }
}
