/**
 Flushing and opening a whole container (vnmcore/src/fs/container.rs): the volume that was flushed is
 the volume that the next open finds, every byte of every file included; anything else is refused.
 */
module Mount {
  import opened Wrappers
  import opened Bytes
  import opened Cipher
  import opened Layout
  import opened Merkle
  import opened VaultFs
  import opened SlotStore
  import opened Container
  import opened Handle
  import opened FileState
  import opened Fs
  import opened FsState
  import opened Fuse
  import opened Rollback
  import FreeList

  /** The allocation block with the bitmap of the volume fits its slot. */
  predicate BitmapFits(v: Volume)
    requires v.Valid()
  {
    v.Fits(MinAllocLen(v.hasGeneration) + (v.Count() + 7) / 8)
  }

  /**
   `VnmContainer::flush`: recompute the root if stale, save the free list, record the baseline. If the state
   file cannot be written the container is flushed all the same and the old baseline stays.
   */
  method FlushContainer(c: VnmContainer, id: ContainerId, state: RollbackState, writable: bool)
    returns (r: Result<(), VnmError>)
    requires c.store.Valid()
    modifies c, c.store, state
    ensures c.store.Valid() && (old(c.Valid()) ==> c.Valid())
    ensures c.nodes == old(c.nodes) && c.store.free == old(c.store.free) && c.lost == old(c.lost)
    ensures OnlySlotChanged(old(c.store.file), c.store.file, c.store.vol.allocSlot)
    ensures if old(c.store.merkleDirty) then IsRoot(c.store.vol, c.store.file, c.store.free, c.store.cachedRoot)
            else c.store.cachedRoot == old(c.store.cachedRoot)
    ensures BitmapFits(c.store.vol) ==> c.store.merkleDirty
    ensures c.store.drawn == old(c.store.drawn) + NonceSectionLen(c.store.vol.cipher)
    ensures r.Ok? <==> BitmapFits(c.store.vol) && (c.store.vol.hasGeneration ==> writable)
    ensures BitmapFits(c.store.vol) && r.Err? ==> r.error == Io
    ensures c.store.generation ==
              if c.store.vol.hasGeneration then (old(c.store.generation) + 1) % U64 else old(c.store.generation)
    ensures state.entries ==
              if BitmapFits(c.store.vol) && c.store.vol.hasGeneration && writable
              then old(state.entries)[id := c.store.generation]
              else old(state.entries)
    ensures BitmapFits(c.store.vol) ==>
              && AllocIntact(c.store.vol, c.store.file, c.store.free,
                             if c.store.vol.hasGeneration then c.store.generation else 0, c.store.StoredRoot())
              && (old(c.store.RootFresh()) ==>
                  RootCurrent(c.store.vol, c.store.file, c.store.free, c.store.StoredRoot()))
    ensures BitmapFits(c.store.vol) && c.lost == {} && old(c.Valid()) ==>
              Persisted(c.store.vol, c.codec, c.store.file, c.nodes, c.store.free,
                        if c.store.vol.hasGeneration then c.store.generation else 0, c.store.StoredRoot())
  {
    hide VnmContainer.Valid;
    hide Persisted;
    r := c.Flush();
    if r.Err? { return; }
    if c.store.vol.hasGeneration {
      r := state.Update(id, c.store.generation, writable);
    }
  }

  /**
   The volume part of `VnmContainer::create` over a file of random bytes: every data slot but the root
   directory's is free, the block is saved once without a Merkle root, and the baseline is recorded.
   */
  method CreateVolume(file: seq<byte>, vol: Volume, codec: Codec, rootSlot: nat, id: ContainerId, state: RollbackState)
    returns (r: Result<VnmContainer, VnmError>)
    requires vol.Valid() && Lawful(codec) && vol.IsDataSlot(rootSlot) && SlotOffset(vol.slotLimit) <= |file|
    requires vol.hasGeneration
    modifies state
    ensures r.Ok? <==> vol.Fits(|codec.encode(Directory([]))|) && vol.Fits(MinAllocLen(true) + (vol.Count() + 7) / 8)
    ensures r.Ok? ==>
              && fresh(r.value) && fresh(r.value.store) && r.value.Valid()
              && r.value.store.vol == vol && r.value.codec == codec && r.value.lost == {}
              && r.value.nodes == map[rootSlot := Directory([])]
              && r.value.store.generation == 1 && state.entries == old(state.entries)[id := 1]
              && Persisted(vol, codec, r.value.store.file, r.value.nodes, r.value.store.free, 1, ZERO_ROOT)
              && OnlySlots(file, r.value.store.file, vol.slotLimit) && r.value.store.merkleDirty
              && OtherSlotsKept(file, r.value.store.file, {rootSlot, vol.allocSlot})
    ensures r.Err? ==> state.entries == old(state.entries)
  {
    hide Volume.Fits;
    hide RawSlot;
    hide Saved;
    hide Holds;
    hide OnlySlots;
    hide UsedSlots;
    hide ReadSlot;
    hide OtherSlotsKept;
    hide OnlySlotChanged;
    var store := new Store(file, vol);
    var w := WriteRootDir(store, codec, rootSlot);
    if w.Err? { return Err(w.error); }
    ghost var written := store.file;
    ghost var nodes := map[rootSlot := Directory([])];
    var saved := store.SaveFreeList();
    if saved.Err? { return Err(saved.error); }
    OneSlot(written, store.file, vol.allocSlot, vol.slotLimit);
    OnlySlotsTwice(file, written, store.file, vol.slotLimit);
    TwoSlotsWritten(file, written, store.file, rootSlot, vol.allocSlot);
    HoldsSave(vol, codec, written, store.file, nodes, FreeList.Elements(store.free), {});
    var u := state.Update(id, store.generation, true);
    var c := new VnmContainer(store, codec, nodes);
    r := Ok(c);
  }

  /** Every slot but these holds the bytes it held. */
  ghost predicate OtherSlotsKept(f: seq<byte>, f': seq<byte>, slots: set<nat>) {
    forall t: nat :: t !in slots && RawSlot(f, t).Some? ==> RawSlot(f', t) == RawSlot(f, t)
  }

  lemma TwoSlotsWritten(f: seq<byte>, mid: seq<byte>, f': seq<byte>, a: nat, b: nat)
    requires OnlySlotChanged(f, mid, a) && OnlySlotChanged(mid, f', b)
    ensures OtherSlotsKept(f, f', {a, b})
  {
    hide RawSlot;
  }

  /** Every data slot but the root directory's becomes free, and that one holds an empty directory. */
  method WriteRootDir(store: Store, codec: Codec, rootSlot: nat) returns (w: Result<(), VnmError>)
    requires store.vol.Valid() && Lawful(codec) && store.vol.IsDataSlot(rootSlot)
    requires SlotOffset(store.vol.slotLimit) <= |store.file|
    requires store.generation == 0 && store.cachedRoot == ZERO_ROOT
    modifies store
    ensures store.generation == 0 && store.cachedRoot == ZERO_ROOT
    ensures w.Ok? <==> store.vol.Fits(|codec.encode(Directory([]))|)
    ensures w.Ok? ==>
              && store.Valid() && OnlySlots(old(store.file), store.file, store.vol.slotLimit)
              && OnlySlotChanged(old(store.file), store.file, rootSlot)
              && Holds(store.vol, codec, store.file, map[rootSlot := Directory([])], FreeList.Elements(store.free), {})
  {
    hide Volume.Fits;
    hide RawSlot;
    hide Holds;
    hide OnlySlots;
    hide FreeList.StrictlyDescending;
    hide ReadSlot;
    store.RebuildFreeList();
    store.free := FreeList.Retain(store.free, rootSlot);
    var data := codec.encode(Directory([]));
    w := store.Write(rootSlot, data);
    if w.Err? { return; }
    OneSlot(old(store.file), store.file, rootSlot, store.vol.slotLimit);
    FreshHolds(store.vol, codec, store.file, rootSlot, store.free);
  }

  lemma FreshHolds(vol: Volume, codec: Codec, file: seq<byte>, rootSlot: nat, free: seq<nat>)
    requires NodeAt(vol, codec, file, rootSlot) == Some(Directory([])) && vol.IsDataSlot(rootSlot)
    requires forall x :: x in free <==> vol.IsDataSlot(x) && x != rootSlot
    ensures Holds(vol, codec, file, map[rootSlot := Directory([])], FreeList.Elements(free), {})
  {
    hide NodeAt;
    assert forall x :: x in free <==> x in FreeList.Elements(free);
  }

  /** A fresh container is a sound file system with an empty root directory. */
  lemma FreshSound(rootSlot: nat)
    ensures Sound(State(map[rootSlot := Directory([])], map[], rootSlot, map[], map[], {rootSlot}))
  {
    var nodes: Nodes := map[rootSlot := Directory([])];
    assert Dirs(nodes) == map[rootSlot := []];
    assert Heads(nodes) == {};
    assert FileSlots(map[]) == {};
    EmptyDir({rootSlot});
  }

  /**
   The volume part of `VnmContainer::open`: load and check the allocation block, then the baseline.
   With an intact allocation block the open is accepted exactly when the stored root matches the used
   slots and the generation is not below the baseline; a persisted container opens as it was flushed.
   Legacy volumes store neither.
   */
  method OpenVolume(file: seq<byte>, vol: Volume, codec: Codec, id: ContainerId, state: RollbackState,
                    ghost nodes: map<nat, Node>, ghost free: seq<nat>, ghost generation: nat, ghost root: seq<byte>)
    returns (r: Result<VnmContainer, VnmError>)
    requires vol.Valid() && Lawful(codec)
    ensures AllocIntact(vol, file, free, generation, root) ==>
              && (r.Ok? <==>
                    && RootCurrent(vol, file, free, root)
                    && (vol.hasGeneration ==> Consistent(state.entries, id, generation)))
              && (!RootCurrent(vol, file, free, root) ==> r == Err(MerkleIntegrityFailure))
              && (r.Err? && RootCurrent(vol, file, free, root) ==>
                    id in state.entries && r.error == RollbackDetected(generation, state.entries[id]))
    ensures r.Ok? ==> fresh(r.value) && fresh(r.value.store) && r.value.store.vol == vol && r.value.codec == codec
    ensures r.Ok? && AllocIntact(vol, file, free, generation, root) ==>
              && r.value.store.Valid() && r.value.store.file == file && r.value.store.free == free
              && r.value.store.generation == generation && r.value.store.cachedRoot == root
              && !r.value.store.merkleDirty
    ensures r.Ok? && Persisted(vol, codec, file, nodes, free, generation, root) ==>
              r.value.Valid() && r.value.nodes == nodes && r.value.lost == {}
  {
    hide RootCurrent;
    hide Saved;
    hide Holds;
    hide Lawful;
    hide Readable;
    hide Consistent;
    var store := new Store(file, vol);
    var l := store.LoadFreeList();
    UsedReadableAll(vol, file);
    if l.Err? { return Err(l.error); }
    if vol.hasGeneration {
      var ok := state.Check(id, store.generation);
      if ok.Err? { return Err(ok.error); }
    }
    var c := new VnmContainer(store, codec, nodes);
    r := Ok(c);
  }

  lemma UsedReadableAll(vol: Volume, file: seq<byte>)
    ensures SlotOffset(vol.slotLimit) <= |file| ==> forall free :: Readable(file, UsedSlots(vol, free))
  {
    if SlotOffset(vol.slotLimit) <= |file| {
      forall free ensures Readable(file, UsedSlots(vol, free)) {
        UsedReadable(vol, file, free);
      }
    }
  }

  /**
   Tampering is detected: if a file with the allocation block of a flush is accepted, every used slot
   holds the raw bytes it held at that flush, or two colliding hash calls are at hand.
   */
  lemma AcceptedIsFlushed(vol: Volume, flushed: seq<byte>, file: seq<byte>, free: seq<nat>, root: seq<byte>)
    returns (q: Option<(Query, Query)>)
    requires vol.Valid() && root != ZERO_ROOT
    requires RootCurrent(vol, flushed, free, root) && RootCurrent(vol, file, free, root)
    ensures q.Some? ==> Collides(vol.suite.deriveKey, q.value)
    ensures q.None? ==> forall s :: vol.IsDataSlot(s) && s !in free ==> RawSlot(file, s) == RawSlot(flushed, s)
  {
    var used := UsedSlots(vol, free);
    forall i | 0 <= i < |used| ensures used[i] < U64 {
      assert used[i] in used;
    }
    q := RootBinds(vol.suite.deriveKey, flushed, used, file, used);
    if q.None? {
      forall s | vol.IsDataSlot(s) && s !in free ensures RawSlot(file, s) == RawSlot(flushed, s) {
        assert s in used;
      }
    }
  }

  /**
   The same without any condition on the root: if the block records the very root of the slots in use, an
   accepted file has them as they were, or the hash is broken.
   */
  lemma FlushedIsKept(vol: Volume, flushed: seq<byte>, file: seq<byte>, free: seq<nat>, root: seq<byte>)
    returns (b: Option<Breach>)
    requires vol.Valid() && IsRoot(vol, flushed, free, root) && RootCurrent(vol, file, free, root)
    ensures b.Some? ==> IsBreach(vol.suite.deriveKey, b.value)
    ensures b.None? ==> forall s :: vol.IsDataSlot(s) && s !in free ==> RawSlot(file, s) == RawSlot(flushed, s)
  {
    hide Root;
    var used := UsedSlots(vol, free);
    if root != ZERO_ROOT {
      var q := AcceptedIsFlushed(vol, flushed, file, free, root);
      return if q.None? then None else Some(Collision(q.value));
    }
    if used != [] {
      var q := RootIsAnswer(vol.suite.deriveKey, flushed, used);
      return Some(ZeroDigest(q));
    }
    b := None;
  }

  /**
   Allocation does not mark the root stale. If a slot is popped and never written while the root is
   current, the next flush stores a root that no longer fits the used slots, and the open after it is
   refused unless two colliding hash calls are at hand.
   */
  lemma LostSlotRaisesAlarm(vol: Volume, file: seq<byte>, free: seq<nat>, free': seq<nat>, slot: nat, root: seq<byte>)
    returns (q: Option<(Query, Query)>)
    requires vol.Valid() && root != ZERO_ROOT && RootCurrent(vol, file, free, root)
    requires vol.IsDataSlot(slot) && slot in free && FreeList.Elements(free') == FreeList.Elements(free) - {slot}
    ensures q.Some? ==> Collides(vol.suite.deriveKey, q.value)
    ensures q.None? ==> !RootCurrent(vol, file, free', root)
  {
    var used, used' := UsedSlots(vol, free), UsedSlots(vol, free');
    assert slot in FreeList.Elements(free) && slot !in FreeList.Elements(free');
    assert slot in used' && slot !in used;
    if !RootCurrent(vol, file, free', root) { return None; }
    forall i | 0 <= i < |used| ensures used[i] < U64 {
      assert used[i] in used;
    }
    forall i | 0 <= i < |used'| ensures used'[i] < U64 {
      assert used'[i] in used';
    }
    q := RootBinds(vol.suite.deriveKey, file, used, file, used');
    assert q.Some?;
  }

  /**
   The whole run: a container is opened, a node that does not fit is to be written, and the container is
   flushed. The file then records one free slot less under the old root, so the next open is refused unless
   two hash calls collide.
   */
  method LostSlotRun(file: seq<byte>, vol: Volume, codec: Codec, id: ContainerId, state: RollbackState, node: Node,
                     ghost nodes: map<nat, Node>, ghost free: seq<nat>, ghost generation: nat, ghost root: seq<byte>)
    returns (c: VnmContainer, r: Result<VnmContainer, VnmError>, ghost q: Option<(Query, Query)>)
    requires Persisted(vol, codec, file, nodes, free, generation, root) && root != ZERO_ROOT && free != []
    requires vol.hasGeneration && BitmapFits(vol) && Consistent(state.entries, id, generation)
    requires !vol.Fits(|codec.encode(node)|)
    modifies state
    ensures fresh(c) && fresh(c.store) && c.Valid() && c.store.vol == vol && c.codec == codec && c.nodes == nodes
    ensures c.lost == {free[|free| - 1]} && OnlySlotChanged(file, c.store.file, vol.allocSlot)
    ensures AllocIntact(vol, c.store.file, free[..|free| - 1], (generation + 1) % U64, root)
    ensures q.Some? ==> Collides(vol.suite.deriveKey, q.value)
    ensures q.None? ==>
              !RootCurrent(vol, c.store.file, free[..|free| - 1], root) && r == Err(MerkleIntegrityFailure)
  {
    hide Persisted;
    hide VnmContainer.Valid;
    hide AllocIntact;
    hide RootCurrent;
    hide IsRoot;
    hide ReadSlot;
    hide RawSlot;
    PersistedParts(vol, codec, file, nodes, free, generation, root);
    var o := OpenVolume(file, vol, codec, id, state, nodes, free, generation, root);
    c := o.value;
    var w := c.WriteNode(node);
    c.StoreIsValid();
    var f := FlushContainer(c, id, state, true);
    ghost var left := c.store.free;
    FreeShrinks(vol, file, free, generation, root);
    AllocWriteKeepsRoot(vol, file, c.store.file, free, root);
    q := LostSlotRaisesAlarm(vol, c.store.file, free, left, free[|free| - 1], root);
    r := OpenVolume(c.store.file, vol, codec, id, state, nodes, left, c.store.generation, root);
  }

  lemma FreeShrinks(vol: Volume, file: seq<byte>, free: seq<nat>, generation: nat, root: seq<byte>)
    requires AllocIntact(vol, file, free, generation, root) && free != []
    ensures vol.IsDataSlot(free[|free| - 1])
    ensures FreeList.Elements(free[..|free| - 1]) == FreeList.Elements(free) - {free[|free| - 1]}
  {
    FreeList.PopThenInsert(free);
    assert free[|free| - 1] in free;
  }

  /** A remounted driver: no handles, and only the root's inode number. */
  lemma RemountSound(s: State)
    requires Sound(s) && s.views == map[]
    ensures Sound(s.(known := {s.root}))
  {
    hide FilesSound;
    hide ListedOnce;
    HandlesAnyKnown(s, s.(known := {s.root}));
  }

  /**
   Unmount and mount again at the root slot the header records: with every handle released, flushing the
   container and opening the file gives back every directory and every byte of every file, and never a
   false alarm.
   */
  method FlushAndReopen(fs: VenomFuse, rootSlot: nat, id: ContainerId, state: RollbackState)
    returns (r: Result<VenomFuse, VnmError>)
    requires rootSlot == fs.root && fs.Valid() && fs.openFiles == map[] && fs.container.lost == {}
    modifies fs.container, fs.container.store, state
    ensures r.Ok?
            <==> fs.container.store.vol.Fits(MinAllocLen(fs.container.store.vol.hasGeneration)
                                             + (fs.container.store.vol.Count() + 7) / 8)
    ensures r.Ok? ==> fresh(r.value) && r.value.Valid() && r.value.Now() == old(fs.Now()).(known := {fs.root})
    ensures r.Ok? ==>
              && fresh(r.value.container) && fresh(r.value.container.store)
              && r.value.container.store.file == fs.container.store.file
              && r.value.container.store.free == old(fs.container.store.free)
    ensures var c := fs.container;
            r.Ok? ==>
              && Persisted(c.store.vol, c.codec, c.store.file, old(c.nodes), old(c.store.free),
                           if c.store.vol.hasGeneration then c.store.generation else 0, c.store.StoredRoot())
              && (old(c.store.merkleDirty) ==> IsRoot(c.store.vol, c.store.file, old(c.store.free), c.store.cachedRoot))
              && (c.store.vol.hasGeneration ==> state.entries == old(state.entries)[id := c.store.generation])
  {
    hide Sound;
    hide VnmContainer.Valid;
    hide RootCurrent;
    hide Holds;
    hide AllocIntact;
    hide IsRoot;
    var c := fs.container;
    ghost var s := fs.Now();
    NoViews(fs);
    RemountSound(s);
    c.StoreIsValid();
    var f := FlushContainer(c, id, state, true);
    if f.Err? { return Err(f.error); }
    ghost var gen := if c.store.vol.hasGeneration then c.store.generation else 0;
    PersistedParts(c.store.vol, c.codec, c.store.file, c.nodes, c.store.free, gen, c.store.StoredRoot());
    var o := OpenVolume(c.store.file, c.store.vol, c.codec, id, state, c.nodes, c.store.free, gen,
                        c.store.StoredRoot());
    var again := new VenomFuse(o.value, rootSlot, fs.files, fs.parent);
    r := Ok(again);
  }

  /** A new container mounted for the first time: the initial state of every run. */
  method CreateAndMount(file: seq<byte>, vol: Volume, codec: Codec, rootSlot: nat, id: ContainerId,
                        state: RollbackState)
    returns (r: Result<VenomFuse, VnmError>)
    requires vol.Valid() && Lawful(codec) && vol.IsDataSlot(rootSlot) && SlotOffset(vol.slotLimit) <= |file|
    requires vol.hasGeneration
    modifies state
    ensures r.Ok? <==> vol.Fits(|codec.encode(Directory([]))|) && vol.Fits(MinAllocLen(true) + (vol.Count() + 7) / 8)
    ensures r.Ok? ==> fresh(r.value) && r.value.Valid() && r.value.openFiles == map[]
    ensures r.Ok? ==> r.value.Now() == State(map[rootSlot := Directory([])], map[], rootSlot, map[], map[], {rootSlot})
  {
    hide Sound;
    hide VnmContainer.Valid;
    hide Persisted;
    var c := CreateVolume(file, vol, codec, rootSlot, id, state);
    if c.Err? { return Err(c.error); }
    FreshSound(rootSlot);
    var fs := new VenomFuse(c.value, rootSlot, map[], map[]);
    r := Ok(fs);
  }

  lemma NoViews(fs: VenomFuse)
    requires fs.openFiles == map[]
    ensures fs.Views() == map[]
  {
  }

  lemma PersistedParts(v: Volume, codec: Codec, file: seq<byte>, nodes: map<nat, Node>, free: seq<nat>, generation: nat,
                       root: seq<byte>)
    requires Persisted(v, codec, file, nodes, free, generation, root)
    ensures AllocIntact(v, file, free, generation, root) && RootCurrent(v, file, free, root) && v.Valid()
    ensures Lawful(codec)
  {
  }
}
