/**
 The rollback protocol over the container file itself: a device whose file is written slot by slot,
 flushed, closed, replaced by any file with an earlier allocation block, and opened again, step for
 step with the protocol of vnmcore/src/rollback.rs as a state machine.
 */
module RollbackRuns {
  import opened Wrappers
  import opened Bytes
  import opened Cipher
  import opened Layout
  import opened Merkle
  import opened VaultFs
  import opened SlotStore
  import opened Container
  import opened Mount
  import opened Rollback
  import FreeList

  /** One flush: the file it left, and what its allocation block says. */
  datatype Save = Save(file: seq<byte>, free: seq<nat>, gen: nat, root: seq<byte>)

  /** The allocation block of a file, as raw bytes. */
  function AllocSlot(v: Volume, file: seq<byte>): Option<seq<byte>> {
    RawSlot(file, v.allocSlot)
  }

  ghost predicate SaveOk(v: Volume, s: Save) {
    AllocIntact(v, s.file, s.free, s.gen, s.root)
  }

  /** A file with the allocation block of a save holds what that save recorded. */
  lemma SameBlock(v: Volume, s: Save, file: seq<byte>)
    requires SaveOk(v, s) && SlotOffset(v.slotLimit) <= |file| && AllocSlot(v, file) == AllocSlot(v, s.file)
    ensures AllocIntact(v, file, s.free, s.gen, s.root)
  {
    assert ReadSlot(v, file, v.allocSlot) == ReadSlot(v, s.file, v.allocSlot);
    var bitmap :| SavedAs(v, s.file, s.free, s.gen, s.root, bitmap);
    assert SavedAs(v, file, s.free, s.gen, s.root, bitmap);
  }

  /** An allocation block records one generation. */
  lemma OneGeneration(v: Volume, file: seq<byte>, s: Save, t: Save)
    requires AllocIntact(v, file, s.free, s.gen, s.root) && AllocIntact(v, file, t.free, t.gen, t.root)
    ensures s.gen == t.gen
  {
    hide ReadSlot;
    SavedParses(v, file, s.free, s.gen, s.root);
    SavedParses(v, file, t.free, t.gen, t.root);
  }

  lemma FirstWorld(id: ContainerId, before: map<ContainerId, nat>)
    ensures var w := Step(Created(id, before), id, Snapshot);
            && Reaches(id, before, [Snapshot], w)
            && w.disk == Block(1, 1) && w.mounted && w.memGen == 1 && w.saves == 1 && w.copies == {Block(1, 1)}
            && w.entries == before[id := 1]
  {
    assert Reaches(id, before, [], Created(id, before));
    OneMoreEvent(id, before, [], Created(id, before), Snapshot);
    assert [] + [Snapshot] == [Snapshot];
  }

  /** The blocks of all saves, as the protocol names them. */
  ghost predicate Copied(saves: seq<Save>, copies: set<Block>) {
    forall k :: 0 <= k < |saves| ==> Block(saves[k].gen, k + 1) in copies
  }

  /** A save that recorded the Merkle root of the slots in use at that moment. */
  ghost predicate FlushedOk(v: Volume, s: Save) {
    IsRoot(v, s.file, s.free, s.root)
  }

  // ── What the operations do ────────────────────────────────────────────────

  /**
   What a mounted container keeps in memory: the free list, the generation, the cached root, whether a slot
   was written since it was computed, and how far the random generator is.
   */
  datatype Memory = Memory(free: seq<nat>, gen: nat, root: seq<byte>, dirty: bool, drawn: nat)

  /**
   A container file at one moment: its bytes, the memory if it is mounted, every save so far and which of
   them the file holds, the baselines, and the copies taken of it with the saves they hold.
   */
  datatype Moment = Moment(disk: seq<byte>, mem: Option<Memory>, saves: seq<Save>, at: nat,
                           entries: map<ContainerId, nat>, copies: seq<seq<byte>>, from: seq<nat>)

  datatype DeviceOp =
    | PutOp(slot: nat, data: seq<byte>)
    | AllocateOp
    | FreeOp(freed: nat)
    | FlushOp
    | CloseOp
    | CopyOp
    | RestoreOp(copy: nat)
    | OpenOp
    | OtherOp(other: ContainerId, gen: nat)
    | ResetOp

  /** What came of an operation; one that makes no sense at the moment is skipped. */
  datatype Outcome = Skipped | Done | Failed(error: VnmError)

  /** Whether an operation makes sense: I/O while mounted, restoring and opening while not. */
  predicate Sensible(v: Volume, id: ContainerId, op: DeviceOp, m: Moment) {
    match op
    case PutOp(slot, _) => m.mem.Some? && v.IsDataSlot(slot)
    case FreeOp(slot) => m.mem.Some? && v.IsDataSlot(slot) && slot !in m.mem.value.free
    case AllocateOp => m.mem.Some?
    case FlushOp => m.mem.Some?
    case CloseOp => m.mem.Some?
    case RestoreOp(k) => m.mem.None? && k < |m.copies| && k < |m.from|
    case OpenOp => m.mem.None?
    case OtherOp(other, _) => other != id
    case CopyOp => true
    case ResetOp => true
  }

  /** The text is sealed into the slot under nonces of its own, and the root is stale from then on. */
  ghost predicate PutStep(v: Volume, slot: nat, data: seq<byte>, m: Moment, m': Moment, out: Outcome) {
    && m.mem.Some? && m'.mem.Some? && OnlySlotChanged(m.disk, m'.disk, slot)
    && out == (if v.Fits(|data|) then Done else Failed(TooLarge))
    && var mem := m.mem.value.(drawn := m.mem.value.drawn + NonceSectionLen(v.cipher));
    && (out.Failed? ==> m' == m.(mem := Some(mem)))
    && (out.Done? ==>
          && m' == m.(disk := m'.disk, mem := Some(mem.(dirty := true)))
          && ((v.cipher.Triple? && data == []) || ReadSlot(v, m'.disk, slot) == Ok(data)))
  }

  /** A slot is popped without a mark on the root. */
  ghost predicate AllocateStep(m: Moment, m': Moment, out: Outcome) {
    && m.mem.Some? && m'.mem.Some?
    && out == (if m.mem.value.free == [] then Failed(NoSpaceLeft) else Done)
    && (out.Failed? ==> m' == m)
    && (out.Done? ==>
          var free := m.mem.value.free;
          m' == m.(mem := Some(m.mem.value.(free := free[..|free| - 1]))))
  }

  /** The slot is overwritten with the next random bytes, goes back to the list, and the root is stale. */
  ghost predicate FreeStep(v: Volume, slot: nat, m: Moment, m': Moment, out: Outcome) {
    && m.mem.Some? && OnlySlotChanged(m.disk, m'.disk, slot) && out.Done?
    && RawSlot(m'.disk, slot) == Some(v.suite.Coins(m.mem.value.drawn, SLOT_SIZE))
    && m' == m.(disk := m'.disk,
                mem := Some(m.mem.value.(free := FreeList.Insert(m.mem.value.free, slot), dirty := true,
                                         drawn := m.mem.value.drawn + SLOT_SIZE)))
  }

  /** The cached root is current, or marked stale. */
  ghost predicate RootGood(v: Volume, m: Moment) {
    m.mem.Some? && (m.mem.value.dirty || RootCurrent(v, m.disk, m.mem.value.free, m.mem.value.root))
  }

  /**
   Only the allocation slot is written; what it records is the latest save, and the baseline follows. After a
   slot write the root recorded is that of the slots in use, else the one that the last flush recorded.
   */
  ghost predicate FlushStepped(v: Volume, id: ContainerId, m: Moment, m': Moment, out: Outcome) {
    && m.mem.Some? && m'.mem.Some? && m'.saves != [] && OnlySlotChanged(m.disk, m'.disk, v.allocSlot) && out.Done?
    && var gen := (m.mem.value.gen + 1) % U64; var root := m'.mem.value.root;
    && m' == m.(disk := m'.disk, saves := m.saves + [Save(m'.disk, m.mem.value.free, gen, root)],
                mem := Some(Memory(m.mem.value.free, gen, root, true,
                                   m.mem.value.drawn + NonceSectionLen(v.cipher))),
                at := |m.saves|, entries := m.entries[id := gen])
    && (if m.mem.value.dirty then IsRoot(v, m'.disk, m.mem.value.free, root) else root == m.mem.value.root)
    && (RootGood(v, m) ==> RootCurrent(v, m'.disk, m.mem.value.free, root))
  }

  /** What an open of this file comes to. */
  ghost function OpenResult(v: Volume, id: ContainerId, m: Moment): Outcome
    requires m.at < |m.saves|
  {
    var s := m.saves[m.at];
    if !RootCurrent(v, m.disk, s.free, s.root) then Failed(MerkleIntegrityFailure)
    else if id in m.entries && s.gen < m.entries[id] then Failed(RollbackDetected(s.gen, m.entries[id]))
    else Done
  }

  ghost predicate OpenStep(v: Volume, id: ContainerId, m: Moment, m': Moment, out: Outcome) {
    && m.at < |m.saves| && out == OpenResult(v, id, m)
    && var held := m.saves[m.at];
    && if out.Done? then
         m'.mem.Some? && m' == m.(mem := Some(Memory(held.free, held.gen, held.root, false, m'.mem.value.drawn)))
       else m' == m
  }

  /** One operation, from moment to moment. */
  ghost predicate Stepped(v: Volume, id: ContainerId, op: DeviceOp, m: Moment, m': Moment, out: Outcome) {
    if !Sensible(v, id, op, m) then m' == m && out == Skipped
    else
      match op
      case PutOp(slot, data) => PutStep(v, slot, data, m, m', out)
      case AllocateOp => AllocateStep(m, m', out)
      case FreeOp(slot) => FreeStep(v, slot, m, m', out)
      case FlushOp => FlushStepped(v, id, m, m', out)
      case CloseOp => m' == m.(mem := None) && out == Done
      case CopyOp => m' == m.(copies := m.copies + [m.disk], from := m.from + [m.at]) && out == Done
      case RestoreOp(k) => m' == m.(disk := m.copies[k], at := m.from[k]) && out == Done
      case OpenOp => OpenStep(v, id, m, m', out)
      case OtherOp(other, gen) => m' == m.(entries := m.entries[other := gen]) && out == Done
      case ResetOp => m' == m.(entries := m.entries - {id}) && out == Done
  }

  /** The blocks of the copies are blocks that were saved. */
  ghost predicate CopiesOk(v: Volume, saves: seq<Save>, copies: seq<seq<byte>>, from: seq<nat>) {
    && |copies| == |from|
    && forall i :: 0 <= i < |copies| ==>
         && from[i] < |saves| && SlotOffset(v.slotLimit) <= |copies[i]|
         && AllocSlot(v, copies[i]) == AllocSlot(v, saves[from[i]].file)
  }

  lemma MoreSaves(v: Volume, saves: seq<Save>, s: Save, copies: seq<seq<byte>>, from: seq<nat>)
    requires CopiesOk(v, saves, copies, from)
    ensures CopiesOk(v, saves + [s], copies, from)
  {
    hide AllocSlot;
  }

  lemma OneCopyMore(v: Volume, saves: seq<Save>, copies: seq<seq<byte>>, from: seq<nat>, file: seq<byte>, at: nat)
    requires CopiesOk(v, saves, copies, from) && at < |saves| && SlotOffset(v.slotLimit) <= |file|
    requires AllocSlot(v, file) == AllocSlot(v, saves[at].file)
    ensures CopiesOk(v, saves, copies + [file], from + [at])
  {
    hide AllocSlot;
  }

  /** One container file, mounted or not, with the local baseline and the copies made of it. */
  class Device {
    const vol: Volume
    const codec: Codec
    const id: ContainerId
    const state: RollbackState
    /** The file while nothing has it open. */
    var file: seq<byte>
    var mounted: VnmContainer?
    var copies: seq<seq<byte>>
    ghost const before: map<ContainerId, nat>
    ghost var saves: seq<Save>
    /** The save whose allocation block the file holds, from 0. */
    ghost var at: nat
    ghost var from: seq<nat>
    ghost var events: seq<Event>
    ghost var world: World

    ghost predicate Valid()
      reads this, state, mounted, if mounted == null then {} else {mounted.store}
    {
      SavesOk() && DiskOk() && MemOk() && InStep()
    }

    /** Every save and every copy is intact. */
    ghost predicate SavesOk()
      reads this`saves, this`copies, this`from
    {
      && vol.Valid() && vol.hasGeneration && Lawful(codec) && vol.Fits(MinAllocLen(true) + (vol.Count() + 7) / 8)
      && (forall k :: 0 <= k < |saves| ==> SaveOk(vol, saves[k]))
      && CopiesOk(vol, saves, copies, from)
    }

    /** The file holds the block of one of the saves. */
    ghost predicate DiskOk()
      reads this, mounted, if mounted == null then {} else {mounted.store}
    {
      && at < |saves| && SlotOffset(vol.slotLimit) <= |Disk()|
      && AllocSlot(vol, Disk()) == AllocSlot(vol, saves[at].file)
    }

    ghost predicate MemOk()
      reads this, mounted, if mounted == null then {} else {mounted.store}
    {
      mounted != null ==> mounted.store.vol == vol && mounted.store.Valid()
    }

    /** The events so far have led the protocol to where the device is. */
    ghost predicate InStep()
      reads this, state, mounted, if mounted == null then {} else {mounted.store}
    {
      && Reaches(id, before, events, world)
      && at < |saves| && world.disk == Block(saves[at].gen, at + 1) && world.mounted == (mounted != null)
      && (mounted != null ==> world.memGen == mounted.store.generation)
      && world.saves == |saves| && Copied(saves, world.copies) && world.entries == state.entries
    }

    /** The device as `create` leaves it. */
    constructor (c: VnmContainer, id: ContainerId, state: RollbackState, ghost before: map<ContainerId, nat>)
      requires c.store.Valid() && c.store.vol.hasGeneration && c.store.generation == 1 && Lawful(c.codec)
      requires AllocIntact(c.store.vol, c.store.file, c.store.free, 1, ZERO_ROOT)
      requires c.store.vol.Fits(MinAllocLen(true) + (c.store.vol.Count() + 7) / 8)
      requires state.entries == before[id := 1]
      ensures Valid() && mounted == c && this.state == state && this.id == id && vol == c.store.vol && codec == c.codec
      ensures events == [Snapshot] && saves == [Save(c.store.file, c.store.free, 1, ZERO_ROOT)] && at == 0
      ensures copies == []
    {
      hide AllocIntact;
      hide Reaches;
      hide Step;
      hide Volume.Fits;
      vol := c.store.vol;
      codec := c.codec;
      this.id := id;
      this.state := state;
      file := c.store.file;
      mounted := c;
      copies := [];
      this.before := before;
      saves := [Save(c.store.file, c.store.free, 1, ZERO_ROOT)];
      at := 0;
      from := [];
      events := [Snapshot];
      world := Step(Created(id, before), id, Snapshot);
      new;
      FirstWorld(id, before);
    }

    /** The bytes of the container file. */
    function Disk(): seq<byte>
      reads this, mounted, if mounted == null then {} else {mounted.store}
    {
      if mounted == null then file else mounted.store.file
    }

    ghost function Now(): Moment
      reads this, state, mounted, if mounted == null then {} else {mounted.store}
    {
      Moment(Disk(),
             if mounted == null then None
             else Some(Memory(mounted.store.free, mounted.store.generation, mounted.store.cachedRoot,
                              mounted.store.merkleDirty, mounted.store.drawn)),
             saves, at, state.entries, copies, from)
    }

    ghost function Latest(): Save
      reads this
      requires saves != []
    {
      saves[|saves| - 1]
    }

    /** No baseline was reset, and the counter has not wrapped. */
    ghost predicate Unforked()
      reads this
    {
      Reset !in events && |saves| < U64
    }

    /** Record an event that the protocol allows. */
    ghost method Happens(e: Event)
      requires Reaches(id, before, events, world) && Enabled(world, id, e)
      modifies this`events, this`world
      ensures Reaches(id, before, events, world)
      ensures events == old(events) + [e] && world == Step(old(world), id, e)
    {
      OneMoreEvent(id, before, events, world, e);
      events := events + [e];
      world := Step(world, id, e);
    }

    // ── While mounted ───────────────────────────────────────────────────────

    /** Write one data slot. */
    method Put(slot: nat, data: seq<byte>) returns (out: Outcome)
      requires Valid() && mounted != null && vol.IsDataSlot(slot)
      modifies mounted.store
      ensures Valid() && PutStep(vol, slot, data, old(Now()), Now(), out)
    {
      hide Device.SavesOk;
      hide Reaches;
      hide Copied;
      hide ReadSlot;
      hide TextImage;
      hide FreeOk;
      VolumeOk();
      assert RawSlot(mounted.store.file, vol.allocSlot).Some?;
      hide RawSlot;
      var r := mounted.store.Write(slot, data);
      out := if r.Ok? then Done else Failed(r.error);
    }

    lemma VolumeOk()
      requires SavesOk()
      ensures vol.Valid() && Ideal(vol.suite) && vol.hasGeneration && Lawful(codec)
      ensures vol.Fits(MinAllocLen(true) + (vol.Count() + 7) / 8)
    {
    }

    /** Take the least free slot. */
    method Allocate() returns (out: Outcome)
      requires Valid() && mounted != null
      modifies mounted.store
      ensures Valid() && AllocateStep(old(Now()), Now(), out)
    {
      hide Device.SavesOk;
      hide Reaches;
      hide Copied;
      var r := mounted.store.Alloc();
      out := if r.Ok? then Done else Failed(r.error);
    }

    /** Wipe a used data slot and give it back. */
    method Free(slot: nat) returns (out: Outcome)
      requires Valid() && mounted != null && vol.IsDataSlot(slot) && slot !in mounted.store.free
      modifies mounted.store
      ensures Valid() && FreeStep(vol, slot, old(Now()), Now(), out)
    {
      hide Device.SavesOk;
      hide Reaches;
      hide Copied;
      VolumeOk();
      assert RawSlot(mounted.store.file, vol.allocSlot).Some?;
      mounted.store.FreeSlot(slot);
      out := Done;
    }

    /** A flush never fails here, and its allocation block is now the latest. */
    method Flush() returns (out: Outcome)
      requires Valid() && mounted != null
      modifies this`saves, this`at, this`events, this`world, mounted, mounted.store, state
      ensures Valid() && FlushStepped(vol, id, old(Now()), Now(), out) && |saves| == |old(saves)| + 1
      ensures events == old(events) + [Event.Flush, Snapshot]
    {
      hide Device.SavesOk;
      hide Reaches;
      hide Copied;
      hide AllocIntact;
      hide RootCurrent;
      hide MinAllocLen;
      hide Volume.Fits;
      hide OnlySlotChanged;
      hide RawSlot;
      VolumeOk();
      var r := FlushContainer(mounted, id, state, true);
      var store := mounted.store;
      RecordSave(Save(store.file, store.free, store.generation, store.StoredRoot()), old(state.entries));
      out := Done;
    }

    /** The ghost side of a flush: one more save, two more events. */
    ghost method RecordSave(s: Save, entries: map<ContainerId, nat>)
      requires mounted != null && SavesOk() && SaveOk(vol, s) && MemOk() && s.gen == mounted.store.generation
      requires Reaches(id, before, events, world) && world.mounted && world.saves == |saves|
      requires Copied(saves, world.copies)
      requires s.gen == (world.memGen + 1) % U64 && world.entries == entries && state.entries == entries[id := s.gen]
      requires mounted.store.file == s.file && SlotOffset(vol.slotLimit) <= |s.file|
      modifies this`saves, this`at, this`events, this`world
      ensures Valid() && saves == old(saves) + [s] && at == |old(saves)|
      ensures events == old(events) + [Event.Flush, Snapshot]
    {
      hide Reaches;
      hide SaveOk;
      hide AllocSlot;
      MoreSaves(vol, saves, s, copies, from);
      saves := saves + [s];
      at := |saves| - 1;
      Happens(Event.Flush);
      Happens(Snapshot);
    }

    /** Unmount without another flush. */
    method Close()
      requires Valid() && mounted != null
      modifies this`file, this`mounted, this`events, this`world
      ensures Valid() && mounted == null && Now() == old(Now()).(mem := None) && events == old(events) + [Event.Close]
    {
      hide Device.SavesOk;
      hide Reaches;
      hide Copied;
      file := mounted.store.file;
      mounted := null;
      Happens(Event.Close);
    }

    // ── At any time ─────────────────────────────────────────────────────────

    /** Copy the file as it is. */
    method Copy()
      requires Valid()
      modifies this`copies, this`from
      ensures Valid() && Now() == old(Now()).(copies := old(copies) + [Disk()], from := old(from) + [at])
    {
      hide SaveOk;
      hide Reaches;
      hide Copied;
      hide AllocSlot;
      OneCopyMore(vol, saves, copies, from, Disk(), at);
      copies := copies + [Disk()];
      from := from + [at];
    }

    /** Forget the baseline of this container. */
    method ResetBaseline()
      requires Valid()
      modifies this`events, this`world, state
      ensures Valid() && Now() == old(Now()).(entries := old(state.entries) - {id})
      ensures events == old(events) + [Event.Reset]
    {
      hide Device.SavesOk;
      hide Reaches;
      hide Copied;
      var r := state.Reset(id, true);
      Happens(Event.Reset);
    }

    /** Another container of the same user is opened or flushed. */
    method UpdateOther(other: ContainerId, gen: nat)
      requires Valid() && other != id
      modifies this`events, this`world, state
      ensures Valid() && Now() == old(Now()).(entries := old(state.entries)[other := gen])
      ensures events == old(events) + [OtherUpdate(other, gen)]
    {
      hide Device.SavesOk;
      hide Reaches;
      hide Copied;
      var r := state.Update(other, gen, true);
      Happens(OtherUpdate(other, gen));
    }

    // ── While not mounted ───────────────────────────────────────────────────

    /** Replace the file by any other whose allocation block is one that some flush wrote. */
    method Restore(f: seq<byte>, ghost k: nat)
      requires Valid() && mounted == null && k < |saves|
      requires SlotOffset(vol.slotLimit) <= |f| && AllocSlot(vol, f) == AllocSlot(vol, saves[k].file)
      modifies this`file, this`at, this`events, this`world
      ensures Valid() && mounted == null && Now() == old(Now()).(disk := f, at := k)
      ensures events == old(events) + [Event.Restore(Block(saves[k].gen, k + 1))]
    {
      hide Device.SavesOk;
      hide Reaches;
      file := f;
      at := k;
      Happens(Event.Restore(Block(saves[k].gen, k + 1)));
    }

    /** Without a fork the file holds the latest block exactly if the latest save wrote it. */
    lemma LatestBlock()
      requires Valid() && Unforked()
      ensures id in state.entries && state.entries[id] == Latest().gen == |saves| && saves[at].gen == at + 1
      ensures AllocSlot(vol, Disk()) == AllocSlot(vol, Latest().file) <==> at == |saves| - 1
    {
      hide Reaches;
      hide AllocIntact;
      hide CopiesOk;
      OnlyLatestOpens(id, before, events, world);
      assert Block(saves[|saves| - 1].gen, |saves|) in world.copies;
      assert SaveOk(vol, saves[at]) && SaveOk(vol, Latest());
      SameBlock(vol, saves[at], Disk());
      if AllocSlot(vol, Disk()) == AllocSlot(vol, Latest().file) {
        SameBlock(vol, Latest(), Disk());
        OneGeneration(vol, Disk(), saves[at], Latest());
      }
    }

    /** What the file records, and that a mount of it finds that. */
    lemma DiskIntact()
      requires SavesOk() && DiskOk()
      ensures AllocIntact(vol, Disk(), saves[at].free, saves[at].gen, saves[at].root)
    {
      hide AllocIntact;
      hide CopiesOk;
      assert SaveOk(vol, saves[at]);
      SameBlock(vol, saves[at], Disk());
    }

    /**
     Open the file: accepted exactly when the root that its allocation block records fits and the generation
     is not below the baseline.
     */
    method Open() returns (out: Outcome)
      requires Valid() && mounted == null
      modifies this`mounted, this`events, this`world
      ensures Valid() && OpenStep(vol, id, old(Now()), Now(), out) && (out.Done? <==> mounted != null)
      ensures mounted != null ==> fresh(mounted) && fresh(mounted.store)
      ensures events == if out.Done? then old(events) + [Event.Open] else old(events)
      ensures Unforked() ==> OpensLatest(vol, old(Now()), out)
    {
      hide Device.SavesOk;
      hide Reaches;
      hide Copied;
      hide RootCurrent;
      hide AllocIntact;
      hide OpensLatest;
      ghost var m := Now();
      VolumeOk();
      DiskIntact();
      if Unforked() { LatestOnly(); }
      var o := OpenVolume(file, vol, codec, id, state, map[], saves[at].free, saves[at].gen, saves[at].root);
      if o.Err? { return Failed(o.error); }
      mounted := o.value;
      Happens(Event.Open);
      out := Done;
    }

    /** What this open comes to is what the protocol promises. */
    lemma LatestOnly()
      requires Valid() && Unforked()
      ensures OpensLatest(vol, Now(), OpenResult(vol, id, Now()))
    {
      hide Reaches;
      hide RootCurrent;
      hide AllocSlot;
      hide Device.SavesOk;
      LatestBlock();
    }
  }

  /**
   The promise about an open: accepted exactly when the file has the allocation block of the latest flush
   and the root recorded there fits; that block never raises the rollback alarm, and any other does if its
   own root fits.
   */
  ghost predicate OpensLatest(v: Volume, m: Moment, out: Outcome) {
    && m.saves != [] && m.at < |m.saves|
    && var latest := m.saves[|m.saves| - 1]; var held := m.saves[m.at];
    var same := AllocSlot(v, m.disk) == AllocSlot(v, latest.file);
    && (out.Done? <==> same && RootCurrent(v, m.disk, latest.free, latest.root))
    && (same ==> !(out.Failed? && out.error.RollbackDetected?))
    && (!same && RootCurrent(v, m.disk, held.free, held.root) ==>
          out == Failed(RollbackDetected(held.gen, latest.gen)))
  }

  /** After such an open every slot in use holds the bytes of the latest flush, or the hash is broken. */
  lemma AcceptedBytes(v: Volume, m: Moment, out: Outcome) returns (b: Option<Breach>)
    requires v.Valid() && OpensLatest(v, m, out) && out.Done? && FlushedOk(v, m.saves[|m.saves| - 1])
    ensures b.Some? ==> IsBreach(v.suite.deriveKey, b.value)
    ensures var latest := m.saves[|m.saves| - 1];
            b.None? ==> forall s :: v.IsDataSlot(s) && s !in latest.free ==>
              RawSlot(m.disk, s) == RawSlot(latest.file, s)
  {
    hide RootCurrent;
    hide IsRoot;
    var latest := m.saves[|m.saves| - 1];
    b := FlushedIsKept(v, latest.file, m.disk, latest.free, latest.root);
  }

  /** A new container on a new device, over a file of random bytes. */
  method CreateDevice(file: seq<byte>, vol: Volume, codec: Codec, rootSlot: nat, id: ContainerId, state: RollbackState)
    returns (r: Result<Device, VnmError>)
    requires vol.Valid() && Lawful(codec) && vol.IsDataSlot(rootSlot) && SlotOffset(vol.slotLimit) <= |file|
    requires vol.hasGeneration
    modifies state
    ensures r.Ok? <==> vol.Fits(|codec.encode(Directory([]))|) && vol.Fits(MinAllocLen(true) + (vol.Count() + 7) / 8)
    ensures r.Ok? ==>
              && fresh(r.value) && fresh(r.value.mounted) && fresh(r.value.mounted.store)
              && r.value.Valid() && r.value.mounted != null && r.value.state == state && r.value.vol == vol
              && r.value.id == id && r.value.events == [Snapshot] && r.value.at == 0 && r.value.copies == []
              && r.value.saves == [Save(r.value.Disk(), r.value.mounted.store.free, 1, ZERO_ROOT)] && Straight(r.value)
              && r.value.mounted.store.merkleDirty
  {
    hide AllocIntact;
    hide Holds;
    ghost var before := state.entries;
    var c := CreateVolume(file, vol, codec, rootSlot, id, state);
    if c.Err? { return Err(c.error); }
    c.value.StoreIsValid();
    var d := new Device(c.value, id, state, before);
    r := Ok(d);
  }

  // ── Runs ──────────────────────────────────────────────────────────────────

  /** One operation. */
  method RunOne(d: Device, op: DeviceOp) returns (out: Outcome)
    requires d.Valid()
    modifies d, d.state, d.mounted, if d.mounted == null then {} else {d.mounted.store}
    ensures d.Valid() && Stepped(d.vol, d.id, op, old(d.Now()), d.Now(), out)
    ensures d.mounted == old(d.mounted) || d.mounted == null || (fresh(d.mounted) && fresh(d.mounted.store))
    ensures Reset in d.events <==> Reset in old(d.events) || op.ResetOp?
    ensures |old(d.saves)| <= |d.saves|
    ensures d.Unforked() && op.OpenOp? && old(d.mounted) == null ==> OpensLatest(d.vol, old(d.Now()), out)
  {
    hide Device.Valid;
    hide PutStep;
    hide AllocateStep;
    hide FreeStep;
    hide FlushStepped;
    hide OpenStep;
    hide OpensLatest;
    out := Skipped;
    match op {
      case PutOp(slot, data) =>
        if d.mounted != null && d.vol.IsDataSlot(slot) { out := d.Put(slot, data); }
      case AllocateOp =>
        if d.mounted != null { out := d.Allocate(); }
      case FreeOp(slot) =>
        if d.mounted != null && d.vol.IsDataSlot(slot) && slot !in d.mounted.store.free { out := d.Free(slot); }
      case FlushOp =>
        if d.mounted != null { out := d.Flush(); }
      case CloseOp =>
        if d.mounted != null { d.Close(); out := Done; }
      case CopyOp =>
        d.Copy();
        out := Done;
      case RestoreOp(k) =>
        Parts(d);
        if d.mounted == null && k < |d.copies| { d.Restore(d.copies[k], d.from[k]); out := Done; }
      case OpenOp =>
        if d.mounted == null { out := d.Open(); }
      case OtherOp(other, gen) =>
        if other != d.id { d.UpdateOther(other, gen); out := Done; }
      case ResetOp =>
        d.ResetBaseline();
        out := Done;
    }
  }

  lemma Parts(d: Device)
    requires d.Valid()
    ensures |d.copies| == |d.from|
    ensures forall k :: 0 <= k < |d.copies| ==>
              && d.from[k] < |d.saves| && SlotOffset(d.vol.slotLimit) <= |d.copies[k]|
              && AllocSlot(d.vol, d.copies[k]) == AllocSlot(d.vol, d.saves[d.from[k]].file)
  {
    hide SaveOk;
    hide Device.InStep;
  }

  /** The moments of a run, each a step from the one before. */
  ghost predicate Run(v: Volume, id: ContainerId, ops: seq<DeviceOp>, trace: seq<Moment>, outs: seq<Outcome>) {
    && |outs| == |ops| && |trace| == |ops| + 1
    && forall i :: 0 <= i < |ops| ==> Stepped(v, id, ops[i], trace[i], trace[i + 1], outs[i])
  }

  /** Every open of the run that was tried found what the protocol promises. */
  ghost predicate AllAsPromised(v: Volume, ops: seq<DeviceOp>, trace: seq<Moment>, outs: seq<Outcome>)
    requires |outs| == |ops| && |trace| == |ops| + 1
  {
    forall i :: 0 <= i < |ops| && ops[i] == OpenOp && trace[i].mem.None? ==> OpensLatest(v, trace[i], outs[i])
  }

  lemma RunMore(v: Volume, id: ContainerId, ops: seq<DeviceOp>, trace: seq<Moment>, outs: seq<Outcome>, op: DeviceOp,
                m: Moment, out: Outcome)
    requires Run(v, id, ops, trace, outs) && Stepped(v, id, op, trace[|ops|], m, out)
    ensures Run(v, id, ops + [op], trace + [m], outs + [out])
    ensures AllAsPromised(v, ops + [op], trace + [m], outs + [out]) <==>
              && AllAsPromised(v, ops, trace, outs)
              && (op == OpenOp && trace[|ops|].mem.None? ==> OpensLatest(v, trace[|ops|], out))
  {
    hide Stepped;
    hide OpensLatest;
    var ops', trace', outs' := ops + [op], trace + [m], outs + [out];
    assert forall i :: 0 <= i < |ops| ==> ops'[i] == ops[i] && outs'[i] == outs[i];
    assert forall i :: 0 <= i <= |ops| ==> trace'[i] == trace[i];
    if AllAsPromised(v, ops', trace', outs') {
      assert ops'[|ops|] == op;
      forall i | 0 <= i < |ops| && ops[i] == OpenOp && trace[i].mem.None? ensures OpensLatest(v, trace[i], outs[i]) {
        assert ops'[i] == OpenOp;
      }
    }
  }

  /**
   Any run of writes, flushes, closes, copies, restores and opens of one container file goes from moment to
   moment as `Stepped` says. Without a reset and with fewer than 2^64 saves, every open is accepted exactly
   if the file has the allocation block of the latest flush and its root fits, and that block never raises
   the rollback alarm.
   */
  method RunDevice(d: Device, ops: seq<DeviceOp>) returns (outs: seq<Outcome>, ghost trace: seq<Moment>)
    requires d.Valid()
    modifies d, d.state, d.mounted, if d.mounted == null then {} else {d.mounted.store}
    ensures d.Valid() && Run(d.vol, d.id, ops, trace, outs) && trace[0] == old(d.Now()) && trace[|ops|] == d.Now()
    ensures Reset in d.events <==> Reset in old(d.events) || ResetOp in ops
    ensures Reset !in old(d.events) && ResetOp !in ops && |d.saves| < U64 ==> AllAsPromised(d.vol, ops, trace, outs)
  {
    hide Device.Valid;
    hide Stepped;
    hide OpensLatest;
    hide Run;
    hide AllAsPromised;
    outs := [];
    trace := [d.Now()];
    RunStarts(d.vol, d.id, trace);
    for i := 0 to |ops|
      invariant d.Valid() && Run(d.vol, d.id, ops[..i], trace, outs) && |trace| == i + 1
      invariant trace[0] == old(d.Now()) && trace[i] == d.Now() && |outs| == i
      invariant d.mounted == old(d.mounted) || d.mounted == null || (fresh(d.mounted) && fresh(d.mounted.store))
      invariant Reset in d.events <==> Reset in old(d.events) || ResetOp in ops[..i]
      invariant d.Unforked() ==> AllAsPromised(d.vol, ops[..i], trace, outs)
    {
      var out := RunOne(d, ops[i]);
      RunMore(d.vol, d.id, ops[..i], trace, outs, ops[i], d.Now(), out);
      assert ops[..i + 1] == ops[..i] + [ops[i]];
      trace, outs := trace + [d.Now()], outs + [out];
    }
    assert ops[..|ops|] == ops;
  }

  lemma RunStarts(v: Volume, id: ContainerId, trace: seq<Moment>)
    requires |trace| == 1
    ensures Run(v, id, [], trace, []) && AllAsPromised(v, [], trace, [])
  {
  }

  // ── What a flush is worth ─────────────────────────────────────────────────

  /** Without a flush there is no new save. */
  lemma {:induction false} SavesStay(v: Volume, id: ContainerId, ops: seq<DeviceOp>, trace: seq<Moment>,
                                     outs: seq<Outcome>, a: nat, b: nat)
    requires Run(v, id, ops, trace, outs) && a <= b <= |ops|
    requires forall l :: a <= l < b ==> !ops[l].FlushOp?
    ensures trace[b].saves == trace[a].saves
    decreases b
  {
    hide PutStep;
    hide AllocateStep;
    hide FreeStep;
    hide OpenStep;
    if a < b {
      SavesStay(v, id, ops, trace, outs, a, b - 1);
      SameSaves(v, id, ops[b - 1], trace[b - 1], trace[b], outs[b - 1]);
    }
  }

  lemma SameSaves(v: Volume, id: ContainerId, op: DeviceOp, m: Moment, m': Moment, out: Outcome)
    requires Stepped(v, id, op, m, m', out) && !op.FlushOp?
    ensures m'.saves == m.saves
  {
    hide OnlySlotChanged;
    hide ReadSlot;
    hide RawSlot;
    hide OpenResult;
  }

  /** Until the container is closed a stale root stays stale. */
  lemma {:induction false} DirtyStays(v: Volume, id: ContainerId, ops: seq<DeviceOp>, trace: seq<Moment>,
                                      outs: seq<Outcome>, a: nat, b: nat)
    requires Run(v, id, ops, trace, outs) && a <= b <= |ops|
    requires forall l :: a <= l < b ==> !ops[l].CloseOp?
    requires trace[a].mem.Some? && trace[a].mem.value.dirty
    ensures trace[b].mem.Some? && trace[b].mem.value.dirty
    decreases b
  {
    hide Stepped;
    if a < b {
      DirtyStays(v, id, ops, trace, outs, a, b - 1);
      StaysDirty(v, id, ops[b - 1], trace[b - 1], trace[b], outs[b - 1]);
    }
  }

  lemma StaysDirty(v: Volume, id: ContainerId, op: DeviceOp, m: Moment, m': Moment, out: Outcome)
    requires Stepped(v, id, op, m, m', out) && !op.CloseOp? && m.mem.Some? && m.mem.value.dirty
    ensures m'.mem.Some? && m'.mem.value.dirty
  {
    hide OnlySlotChanged;
    hide ReadSlot;
    hide RawSlot;
    hide OpenResult;
  }

  /** Writing or wiping a slot marks the root stale. */
  lemma WriteIsDirty(v: Volume, id: ContainerId, op: DeviceOp, m: Moment, m': Moment, out: Outcome)
    requires Stepped(v, id, op, m, m', out) && (op.PutOp? || op.FreeOp?) && out.Done?
    ensures m'.mem.Some? && m'.mem.value.dirty
  {
    hide OnlySlotChanged;
    hide ReadSlot;
    hide RawSlot;
  }

  /** A flush of a stale root records the root of the slots in use. */
  lemma FlushIsReal(v: Volume, id: ContainerId, m: Moment, m': Moment, out: Outcome)
    requires Stepped(v, id, FlushOp, m, m', out) && m.mem.Some? && m.mem.value.dirty
    ensures m'.saves != []
    ensures var s := m'.saves[|m'.saves| - 1];
            s.file == m'.disk && s.free == m.mem.value.free && FlushedOk(v, s)
  {
    hide OnlySlotChanged;
    hide IsRoot;
    hide RootCurrent;
  }

  /**
   In any run as promised: a slot is written or wiped at k, the container is flushed at j before it is closed,
   not flushed again, and opened at i. If that open is accepted, whatever file was put in between, every slot
   in use has the bytes of the flush, or the hash is broken.
   */
  lemma FlushedBytesReturn(v: Volume, id: ContainerId, ops: seq<DeviceOp>, trace: seq<Moment>, outs: seq<Outcome>,
                           k: nat, j: nat, i: nat)
    returns (b: Option<Breach>)
    requires v.Valid() && Run(v, id, ops, trace, outs) && AllAsPromised(v, ops, trace, outs) && k < j < i < |ops|
    requires (ops[k].PutOp? || ops[k].FreeOp?) && outs[k].Done? && forall l :: k < l < j ==> !ops[l].CloseOp?
    requires ops[j].FlushOp? && forall l :: j < l < i ==> !ops[l].FlushOp?
    requires ops[i].OpenOp? && trace[i].mem.None? && outs[i].Done?
    ensures trace[j].mem.Some?
    ensures b.Some? ==> IsBreach(v.suite.deriveKey, b.value)
    ensures b.None? ==> forall s :: v.IsDataSlot(s) && s !in trace[j].mem.value.free ==>
              RawSlot(trace[i].disk, s) == RawSlot(trace[j + 1].disk, s)
  {
    hide Stepped;
    hide OpensLatest;
    hide FlushedOk;
    WriteIsDirty(v, id, ops[k], trace[k], trace[k + 1], outs[k]);
    DirtyStays(v, id, ops, trace, outs, k + 1, j);
    FlushIsReal(v, id, trace[j], trace[j + 1], outs[j]);
    SavesStay(v, id, ops, trace, outs, j + 1, i);
    assert ops[i] == OpenOp;
    b := AcceptedBytes(v, trace[i], outs[i]);
  }

  // ── From 2^64 saves on ────────────────────────────────────────────────────

  /** A mounted device that was never reset, at the generation of its last save, with a root that fits. */
  ghost predicate Straight(d: Device)
    reads d, d.state, d.mounted, if d.mounted == null then {} else {d.mounted.store}
  {
    && d.Valid() && d.mounted != null && d.saves != [] && Reset !in d.events && d.mounted.store.RootFresh()
    && d.mounted.store.generation == d.Latest().gen == GenOf(|d.saves|)
    && d.id in d.state.entries && d.state.entries[d.id] == d.Latest().gen
    && RootCurrent(d.vol, d.Disk(), d.Latest().free, d.Latest().root) && d.at == |d.saves| - 1
  }

  /** The only copy holds the block of its save. */
  lemma CopyHolds(d: Device)
    requires d.Valid() && |d.copies| == 1 && |d.from| == 1
    ensures d.from[0] < |d.saves| && SlotOffset(d.vol.slotLimit) <= |d.copies[0]|
    ensures AllocSlot(d.vol, d.copies[0]) == AllocSlot(d.vol, d.saves[d.from[0]].file)
  {
    hide Device.Valid;
    Parts(d);
  }

  /** Blocks of different generations differ. */
  lemma OtherGeneration(d: Device)
    requires d.Valid() && d.saves != [] && d.at < |d.saves| && d.saves[d.at].gen != d.Latest().gen
    ensures AllocSlot(d.vol, d.Disk()) != AllocSlot(d.vol, d.Latest().file)
  {
    hide AllocIntact;
    hide CopiesOk;
    hide Reaches;
    assert SaveOk(d.vol, d.saves[d.at]) && SaveOk(d.vol, d.Latest());
    SameBlock(d.vol, d.saves[d.at], d.Disk());
    if AllocSlot(d.vol, d.Disk()) == AllocSlot(d.vol, d.Latest().file) {
      SameBlock(d.vol, d.Latest(), d.Disk());
      OneGeneration(d.vol, d.Disk(), d.saves[d.at], d.Latest());
    }
  }

  lemma SameVolume(d: Device)
    requires d.Valid() && d.mounted != null
    ensures d.mounted.store.vol == d.vol
  {
    hide Device.SavesOk;
    hide Device.DiskOk;
    hide Device.InStep;
  }

  method FlushOnce(d: Device)
    requires Straight(d)
    modifies d, d.state, d.mounted, d.mounted.store
    ensures Straight(d) && d.mounted == old(d.mounted)
    ensures d.saves == old(d.saves) + [d.Latest()] && d.copies == old(d.copies) && d.from == old(d.from)
  {
    hide Device.Valid;
    hide RootCurrent;
    hide OnlySlotChanged;
    hide IsRoot;
    SameVolume(d);
    var out := d.Flush();
  }

  method FlushTimes(d: Device, n: nat)
    requires Straight(d)
    modifies d, d.state, d.mounted, d.mounted.store
    ensures Straight(d) && d.mounted == old(d.mounted) && |d.saves| == |old(d.saves)| + n
    ensures old(d.saves) <= d.saves && d.copies == old(d.copies) && d.from == old(d.from)
  {
    hide Straight;
    for i := 0 to n
      invariant Straight(d) && d.mounted == old(d.mounted) && |d.saves| == |old(d.saves)| + i
      invariant old(d.saves) <= d.saves && d.copies == old(d.copies) && d.from == old(d.from)
    {
      FlushOnce(d);
    }
  }

  /** An earlier save whose generation is not below that of the n-th, once the counter has wrapped. */
  function StaleSave(n: nat): (k: nat)
    requires n >= U64
    ensures 1 <= k < n && GenOf(n) <= GenOf(k) && (n % U64 != U64 - 1 ==> GenOf(n) != GenOf(k))
  {
    assert n % U64 == (n - U64) % U64;
    if n % U64 == U64 - 1 then n - U64 else n - U64 + 1
  }

  /** Flush until there are k saves, copy the file, and flush until there are n. */
  method Age(d: Device, k: nat, n: nat)
    requires Straight(d) && |d.saves| == 1 && d.copies == [] && 1 <= k <= n
    modifies d, d.state, d.mounted, d.mounted.store
    ensures Straight(d) && d.mounted == old(d.mounted) && |d.saves| == n && |d.copies| == 1 && d.from == [k - 1]
    ensures d.saves[k - 1].gen == GenOf(k)
    ensures RootCurrent(d.vol, d.copies[0], d.saves[k - 1].free, d.saves[k - 1].root)
  {
    hide Device.Valid;
    hide RootCurrent;
    hide AllocSlot;
    Parts(d);
    FlushTimes(d, k - 1);
    d.Copy();
    FlushTimes(d, n - k);
  }

  /**
   For every n from 2^64 on: the file is copied after an earlier save and flushed until there are n saves;
   closed and replaced by the copy it is accepted, without any reset.
   */
  method StaleOpen(d: Device, n: nat) returns (out: Outcome)
    requires Straight(d) && |d.saves| == 1 && d.copies == [] && n >= U64
    modifies d, d.state, d.mounted, d.mounted.store
    ensures out.Done? && d.Valid() && Reset !in d.events && |d.saves| == n && d.at + 1 == StaleSave(n) < n
    ensures n % U64 != U64 - 1 ==> AllocSlot(d.vol, d.Disk()) != AllocSlot(d.vol, d.Latest().file)
  {
    hide Device.Valid;
    hide RootCurrent;
    hide AllocSlot;
    hide OpensLatest;
    var k := StaleSave(n);
    Age(d, k, n);
    d.Close();
    CopyHolds(d);
    d.Restore(d.copies[0], k - 1);
    out := d.Open();
    if n % U64 != U64 - 1 { OtherGeneration(d); }
  }
}
