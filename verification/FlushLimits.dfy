/**
 When a flush goes through: the chunks that need a slot against the free list, the nodes it writes
 against the slot size (vnmcore/src/fs/fuse.rs, `flush_fh` and `write_through_flush`).
 */
module FlushLimits {
  import opened Wrappers
  import opened Bytes
  import opened VaultFs
  import opened Container
  import opened Handle
  import opened IndexChain
  import opened FileState
  import opened FlushSteps
  import SlotStore
  import FreeList

  /** One moment of an open file: the handle, its index chain, the disk, the free list and the lost slots. */
  datatype Instant = Instant(h: Handle, chain: seq<nat>, nodes: Nodes, free: seq<nat>, lost: set<nat>)
  {
    /** The same with other dirty marks. */
    function Marked(d: set<nat>): Instant {
      this.(h := h.(dirty := d))
    }

    /** The same with nothing dirty. */
    function Cleaned(): Instant {
      this.(h := h.(dirty := {}, metaDirty := false))
    }
  }

  /** A file of this size needs no overflow chain. */
  predicate Short(total: nat) {
    ChunkCount(total) <= MAX_DIRECT_SLOTS + 1
  }

  predicate Clean(h: Handle) {
    h.dirty == {} && !h.metaDirty
  }

  /** Chunk 0 excepted: it shares the head slot. */
  function Continuations(dirty: set<nat>): set<nat> {
    set i | i in dirty && i >= 1
  }

  /** The chunks of `s` that are in memory and have no slot yet. */
  function Unallocated(h: Handle, s: set<nat>): set<nat> {
    set i | i in s && i in h.cache && i < |h.slotMap| && h.slotMap[i] == None
  }

  /** Whether the chunks of `s` that are in memory can all be stored, given so many free slots. */
  ghost predicate Storable(c: VnmContainer, h: Handle, s: set<nat>, free: nat) {
    && (forall i :: i in s && i in h.cache && i < |h.slotMap| ==> c.Fits(FileData(h.cache[i])))
    && |Unallocated(h, s)| <= free
  }

  /** The same for one chunk. */
  ghost predicate OneStorable(c: VnmContainer, h: Handle, ci: nat, free: nat) {
    ci in h.cache && ci < |h.slotMap| ==> c.Fits(FileData(h.cache[ci])) && (h.slotMap[ci] == None ==> free > 0)
  }

  /** Chunk ci has been dealt with; no other entry of the slot map or the cache has changed. */
  ghost predicate ChunkPlaced(h: Handle, h': Handle, ci: nat) {
    && |h'.slotMap| == |h.slotMap|
    && (forall i :: 0 <= i < |h.slotMap| && i != ci ==> h'.slotMap[i] == h.slotMap[i])
    && (ci < |h.slotMap| ==> if ci in h.cache && h.slotMap[ci].None? then h'.slotMap[ci].Some?
                             else h'.slotMap[ci] == h.slotMap[ci])
    && (forall i :: i != ci ==> (i in h'.cache <==> i in h.cache))
    && (forall i :: i != ci && i in h.cache ==> h'.cache[i] == h.cache[i])
  }

  /** Free slots that chunk ci takes. */
  function Takes(h: Handle, ci: nat): nat {
    if ci in Unallocated(h, {ci}) then 1 else 0
  }

  lemma NothingToStore(c: VnmContainer, h: Handle, free: nat)
    ensures Storable(c, h, {}, free) && Unallocated(h, {}) == {}
  {
  }

  /** Storing one chunk leaves exactly the others without a slot. */
  lemma OneFewer(h: Handle, h': Handle, s: set<nat>, ci: nat)
    requires ci in s && ChunkPlaced(h, h', ci)
    ensures Unallocated(h', s - {ci}) == Unallocated(h, s) - {ci}
    ensures |Unallocated(h, s)| == |Unallocated(h', s - {ci})| + Takes(h, ci)
    ensures Takes(h, ci) == 1 <==> ci in Unallocated(h, s)
  {
    assert Unallocated(h', s - {ci}) == Unallocated(h, s) - {ci};
    if ci in Unallocated(h, s) {
      assert ci in Unallocated(h, {ci});
      assert Unallocated(h, s) == Unallocated(h', s - {ci}) + {ci};
    } else {
      assert Unallocated(h, s) == Unallocated(h', s - {ci});
    }
  }

  /** Storing one chunk leaves exactly the others to be stored. */
  lemma StoreStep(c: VnmContainer, h: Handle, h': Handle, s: set<nat>, ci: nat, free: nat)
    requires ci in s && OneStorable(c, h, ci, free) && ChunkPlaced(h, h', ci)
    ensures Takes(h, ci) <= free
    ensures Storable(c, h, s, free) <==> Storable(c, h', s - {ci}, free - Takes(h, ci))
  {
    hide VnmContainer.Fits;
    OneFewer(h, h', s, ci);
    hide Unallocated;
    TakesWhen(h, ci);
    OthersFit(c, h, h', s, ci);
  }

  lemma TakesWhen(h: Handle, ci: nat)
    ensures Takes(h, ci) == if ci in h.cache && ci < |h.slotMap| && h.slotMap[ci] == None then 1 else 0
  {
  }

  lemma OthersFit(c: VnmContainer, h: Handle, h': Handle, s: set<nat>, ci: nat)
    requires ci in s && ChunkPlaced(h, h', ci)
    requires ci in h.cache && ci < |h.slotMap| ==> c.Fits(FileData(h.cache[ci]))
    ensures (forall i :: i in s && i in h.cache && i < |h.slotMap| ==> c.Fits(FileData(h.cache[i])))
            <==> (forall i :: i in s - {ci} && i in h'.cache && i < |h'.slotMap| ==> c.Fits(FileData(h'.cache[i])))
  {
    hide VnmContainer.Fits;
    if forall i :: i in s - {ci} && i in h'.cache && i < |h'.slotMap| ==> c.Fits(FileData(h'.cache[i])) {
      forall i | i in s && i in h.cache && i < |h.slotMap| ensures c.Fits(FileData(h.cache[i])) {
        if i != ci { assert i in s - {ci} && i in h'.cache; }
      }
    }
    if forall i :: i in s && i in h.cache && i < |h.slotMap| ==> c.Fits(FileData(h.cache[i])) {
      forall i | i in s - {ci} && i in h'.cache && i < |h'.slotMap| ensures c.Fits(FileData(h'.cache[i])) {
        assert i in s && i in h.cache;
      }
    }
  }

  lemma StoreFails(c: VnmContainer, h: Handle, s: set<nat>, ci: nat, free: nat)
    requires ci in s && !OneStorable(c, h, ci, free)
    ensures !Storable(c, h, s, free)
  {
    hide VnmContainer.Fits;
    assert h.slotMap[ci] == None ==> ci in Unallocated(h, s);
  }

  /** Some dirty continuation chunks in memory have got a slot; that alone marks the head dirty. */
  ghost predicate SlotsGiven(h: Handle, h': Handle) {
    && |h'.slotMap| == |h.slotMap|
    && (forall i :: 0 <= i < |h.slotMap| ==>
          h'.slotMap[i] == h.slotMap[i] || (i >= 1 && i in h.dirty && i in h.cache && h.slotMap[i].None?))
    && (h'.metaDirty <==> h.metaDirty || h'.slotMap != h.slotMap)
  }

  lemma OneMoreGiven(h0: Handle, h: Handle, h': Handle, ci: nat)
    requires SlotsGiven(h0, h) && ChunkPlaced(h, h', ci) && ci in h0.dirty && ci >= 1 && h'.cache == h.cache == h0.cache
    requires h'.metaDirty <==> h.metaDirty || Takes(h, ci) == 1
    ensures SlotsGiven(h0, h')
  {
    TakesWhen(h, ci);
    if Takes(h, ci) == 1 {
      assert h'.slotMap[ci].Some? && h0.slotMap[ci].None?;
    } else {
      assert h'.slotMap == h.slotMap;
    }
  }

  /**
   Part-way through step 1, from `h0` with `free0` free slots to `h` with `free`: the chunks of `rest`
   are still to be stored, and all can be exactly when all could be at the start.
   */
  ghost predicate Placing(c: VnmContainer, h0: Handle, free0: nat, h: Handle, rest: set<nat>, free: nat) {
    var all := Unallocated(h0, Continuations(h0.dirty));
    && h.cache == h0.cache && rest <= Continuations(h0.dirty)
    && free + |all| == free0 + |Unallocated(h, rest)|
    && |Unallocated(h, rest)| <= |all|
    && (h.metaDirty <==> h0.metaDirty || |Unallocated(h, rest)| < |all|)
    && (Storable(c, h0, Continuations(h0.dirty), free0) <==> Storable(c, h, rest, free))
    && |h.slotMap| == |h0.slotMap|
    && (forall i :: 0 <= i < |h.slotMap| && i !in Continuations(h0.dirty) ==> h.slotMap[i] == h0.slotMap[i])
  }

  lemma PlacingStarts(c: VnmContainer, h: Handle, free: nat)
    ensures Placing(c, h, free, h, Continuations(h.dirty), free)
  {
  }

  lemma PlacingStep(c: VnmContainer, h0: Handle, free0: nat, h: Handle, h': Handle, rest: set<nat>, ci: nat, free: nat,
                    free': nat)
    requires Placing(c, h0, free0, h, rest, free) && ci in rest
    requires OneStorable(c, h, ci, free) && ChunkPlaced(h, h', ci) && h'.cache == h.cache
    requires free' + Takes(h, ci) == free && (h'.metaDirty <==> h.metaDirty || Takes(h, ci) == 1)
    ensures Placing(c, h0, free0, h', rest - {ci}, free')
  {
    hide Storable;
    hide OneStorable;
    hide Unallocated;
    OneFewer(h, h', rest, ci);
    StoreStep(c, h, h', rest, ci, free);
  }

  lemma PlacingFails(c: VnmContainer, h0: Handle, free0: nat, h: Handle, rest: set<nat>, ci: nat, free: nat)
    requires Placing(c, h0, free0, h, rest, free) && ci in rest && !OneStorable(c, h, ci, free)
    ensures !Storable(c, h0, Continuations(h0.dirty), free0)
  {
    hide Storable;
    hide OneStorable;
    StoreFails(c, h, rest, ci, free);
  }

  lemma PlacingEnds(c: VnmContainer, h0: Handle, free0: nat, h: Handle, free: nat)
    requires Placing(c, h0, free0, h, {}, free)
    ensures Storable(c, h0, Continuations(h0.dirty), free0)
    ensures free == free0 - |Unallocated(h0, Continuations(h0.dirty))|
    ensures h.metaDirty <==> h0.metaDirty || Unallocated(h0, Continuations(h0.dirty)) != {}
    ensures |h.slotMap| == |h0.slotMap|
    ensures forall i :: 0 <= i < |h.slotMap| && i !in Continuations(h0.dirty) ==> h.slotMap[i] == h0.slotMap[i]
  {
    hide Storable;
    NothingToStore(c, h, free);
  }

  /** Whether the head is rewritten once step 1 is done. */
  predicate Rewrites(h: Handle) {
    h.metaDirty || 0 in h.dirty || Max(ChunkCount(h.total), 1) < |h.slotMap|
  }

  /** The free list once the excess slots and the old chain are freed. */
  function FreeAfterDrain(h: Handle, chain: seq<nat>, free: seq<nat>): seq<nat> {
    FreedAll(FreedAll(free, ExcessIds(h)), chain)
  }

  /** The slots of the entries past the end of the file, in order. */
  function ExcessIds(h: Handle): seq<nat> {
    var n := Max(ChunkCount(h.total), 1);
    if n < |h.slotMap| then Allocated(h.slotMap[n..]) else []
  }

  /** Whether a flush rewrites the head. */
  predicate RewritesHead(h: Handle) {
    Rewrites(h) || Unallocated(h, Continuations(h.dirty)) != {}
  }

  /** The ids of a file of this size that go into the overflow chain. */
  function OverflowCount(total: nat): nat {
    if Short(total) then 0 else ChunkCount(total) - 1 - MAX_DIRECT_SLOTS
  }

  /** Free slots once the dirty chunks are stored, the excess slots freed and the old chain freed. */
  function FreeForChain(h: Handle, chain: seq<nat>, free: nat): int {
    free - |Unallocated(h, Continuations(h.dirty))| + |ExcessIds(h)| + |chain|
  }

  /** Whether the rewritten chain finds its slots. */
  predicate ChainHasRoom(h: Handle, chain: seq<nat>, free: nat) {
    ChainLength(OverflowCount(h.total)) <= FreeForChain(h, chain, free)
  }

  /** The head that a flush leaves or would have left, as the handle stands afterwards. */
  function HeadToWrite(h: Handle, nodes: Nodes): Node {
    NewHead(h, nodes, KeptIds(h), h.chain)
  }

  /**
   Whether a flush of `h0` goes through, given so many free slots: its chunks can be stored and, if the
   head is to be rewritten, the overflow chain finds its slots and the head fits. The head depends on
   the slots that the chunks were given, so it is read off the handle `h` that the flush leaves.
   */
  ghost predicate GoesThrough(c: VnmContainer, h0: Handle, chain0: seq<nat>, free: nat, h: Handle, nodes: Nodes) {
    && Storable(c, h0, Continuations(h0.dirty), free)
    && (RewritesHead(h0) ==> ChainHasRoom(h0, chain0, free) && c.Fits(HeadToWrite(h, nodes)))
  }

  lemma {:induction false} AllocatedFull(m: seq<Option<nat>>)
    requires forall i :: 0 <= i < |m| ==> m[i].Some?
    ensures |Allocated(m)| == |m|
  {
    if m != [] { AllocatedFull(m[1..]); }
  }

  lemma {:induction false} AllocatedMembers(m: seq<Option<nat>>)
    ensures forall s :: s in Allocated(m) <==> Some(s) in m
  {
    if m != [] {
      AllocatedMembers(m[1..]);
      assert m == [m[0]] + m[1..];
    }
  }

  /** With every chunk stored, the ids past the head are as many as the size says. */
  lemma OverflowIs(h: Handle, nodes: Nodes, chain: seq<nat>)
    requires FileOk(h, nodes, chain) && h.dirty <= {0}
    ensures |Overflow(KeptIds(h))| == OverflowCount(h.total)
  {
    NoHoles(h, nodes, chain);
    var n := Max(ChunkCount(h.total), 1);
    assert Kept(h).slotMap == h.slotMap[..n];
    AllocatedFull(h.slotMap[..n][1..]);
  }

  /** The slots involved in rewriting the chain belong to the volume. */
  lemma IdsInVolume(c: VnmContainer, h: Handle, chain: seq<nat>)
    requires c.Valid() && FileOk(h, c.nodes, chain)
    ensures forall s :: s in Overflow(KeptIds(h)) || s in FreeAfterDrain(h, chain, c.store.free) ==>
              c.store.vol.IsDataSlot(s)
  {
    hide VnmContainer.Valid;
    hide SlotStore.Volume.IsDataSlot;
    c.InVolume();
    FreedElements(FreedAll(c.store.free, ExcessIds(h)), chain);
    FreedElements(c.store.free, ExcessIds(h));
    AllocatedMembers(Kept(h).slotMap[1..]);
    var n := Max(ChunkCount(h.total), 1);
    if n < |h.slotMap| { AllocatedMembers(h.slotMap[n..]); }
    assert forall x :: x in Kept(h).slotMap[1..] ==> x in h.slotMap;
    assert forall s :: Some(s) in h.slotMap ==> s in c.nodes;
    assert forall s :: s in chain ==> s in c.nodes;
  }

  /** After step 1, counting decides whether the chain can be rewritten. */
  lemma RoomDecides(c: VnmContainer, h: Handle, chain: seq<nat>)
    requires c.Valid() && FileOk(h, c.nodes, chain) && h.dirty <= {0}
    requires Short(h.total) || BlocksFit(c)
    ensures ChainFits(c, Overflow(KeptIds(h)), FreeAfterDrain(h, chain, c.store.free), None)
            <==> ChainLength(OverflowCount(h.total)) <= |c.store.free| + |ExcessIds(h)| + |chain|
  {
    hide VnmContainer.Valid;
    hide FileOk;
    hide BlocksFit;
    hide KeptIds;
    hide ChainFits;
    hide ExcessIds;
    OverflowIs(h, c.nodes, chain);
    IdsInVolume(c, h, chain);
    var ids, free := Overflow(KeptIds(h)), FreeAfterDrain(h, chain, c.store.free);
    if ids == [] {
      NoBlocks(c, free, None);
    } else {
      ChainFitsWhen(c, ids, free, None);
    }
  }

  /** Whether steps 2 and 3 go through. */
  ghost predicate FinishFits(c: VnmContainer, h: Handle, chain: seq<nat>, free: seq<nat>, h': Handle, nodes': Nodes) {
    Rewrites(h) ==>
      && ChainFits(c, Overflow(KeptIds(h)), FreeAfterDrain(h, chain, free), None)
      && c.Fits(HeadToWrite(h', nodes'))
  }

  /** Step 1 done: every dirty continuation chunk in memory has its slot, the least ones went to those without. */
  ghost predicate StoredAll(m: Instant, mid: Instant) {
    var u := |Unallocated(m.h, Continuations(m.h.dirty))|;
    && mid.h == m.h.(slotMap := mid.h.slotMap, metaDirty := mid.h.metaDirty) && SlotsGiven(m.h, mid.h)
    && (forall i :: 1 <= i < ChunkCount(m.h.total) && i < |mid.h.slotMap| ==> mid.h.slotMap[i].Some?)
    && mid.chain == m.chain && mid.lost == m.lost
    && u <= |m.free| && mid.free == m.free[..|m.free| - u]
  }

  /** Steps 2 and 3: the slot map is cut; before a head is rewritten its old chain is freed and the new one written. */
  ghost predicate RestLeaves(m: Instant, m': Instant, ok: bool) {
    var n := Max(ChunkCount(m.h.total), 1);
    && n <= |m.h.slotMap|
    && m'.h == m.h.(chain := m'.h.chain, slotMap := m.h.slotMap[..n], dirty := m'.h.dirty, metaDirty := m'.h.metaDirty)
    && (if ok then Clean(m'.h)
        else m'.h.dirty == m.h.dirty && (m'.h.metaDirty <==> m.h.metaDirty || n < |m.h.slotMap|))
    && if Rewrites(m.h) then
         ChainTook(FreeAfterDrain(m.h, m.chain, m.free), m.lost, OverflowCount(m.h.total), m.chain, m'.free, m'.lost,
                   m'.chain, ok)
       else
         ok && m'.h.chain == m.h.chain && m' == m.(h := m'.h)
  }

  /**
   What a flush makes of a file and the free list, and exactly when it succeeds: a clean one does nothing; else
   every dirty continuation chunk in memory must be stored, and then the head and its chain be written.
   */
  ghost predicate FlushLeaves(c: VnmContainer, m: Instant, m': Instant, ok: bool) {
    if Clean(m.h) then
      ok && m' == m
    else if !Storable(c, m.h, Continuations(m.h.dirty), |m.free|) then
      && !ok && m'.h == m.h.(slotMap := m'.h.slotMap, metaDirty := m'.h.metaDirty) && SlotsGiven(m.h, m'.h)
      && m'.chain == m.chain && TakenOff(m.free, m.lost, m'.free, m'.lost, false)
    else exists mid ::
      && StoredAll(m, mid) && RestLeaves(mid, m', ok)
      && (ok <==> FinishFits(c, mid.h, mid.chain, mid.free, m'.h, m'.nodes))
  }

  /** Step 1 done, the rest of the flush decides. */
  lemma RestDecides(c: VnmContainer, h0: Handle, nodes0: Nodes, chain: seq<nat>, free0: nat, h: Handle)
    requires c.Valid() && FileOk(h0, nodes0, chain) && Placing(c, h0, free0, h, {}, |c.store.free|)
    requires FileOk(h.(dirty := h.dirty * {0}), c.nodes, chain)
    requires h.dirty == h0.dirty && h.total == h0.total
    requires Short(h.total) || BlocksFit(c)
    ensures forall h', nodes' ::
              GoesThrough(c, h0, chain, free0, h', nodes') <==> FinishFits(c, h, chain, c.store.free, h', nodes')
  {
    hide VnmContainer.Valid;
    hide VnmContainer.Fits;
    hide BlocksFit;
    hide Storable;
    hide ChainFits;
    hide Allocated;
    hide HeadToWrite;
    hide FreedAll;
    hide Unallocated;
    var g := h.(dirty := h.dirty * {0});
    RoomDecides(c, g, chain);
    PlacingEnds(c, h0, free0, h, |c.store.free|);
    ExcessAsBefore(h0, h, nodes0, chain);
    assert Kept(g).slotMap == Kept(h).slotMap;
    assert KeptIds(g) == KeptIds(h) && ExcessIds(g) == ExcessIds(h);
  }

  lemma ExcessAsBefore(h0: Handle, h: Handle, nodes0: Nodes, chain: seq<nat>)
    requires FileOk(h0, nodes0, chain) && h.total == h0.total && |h.slotMap| == |h0.slotMap|
    requires forall i :: 0 <= i < |h.slotMap| && i !in Continuations(h0.dirty) ==> h.slotMap[i] == h0.slotMap[i]
    ensures ExcessIds(h) == ExcessIds(h0)
  {
    hide Allocated;
    var n := Max(ChunkCount(h.total), 1);
    if n < |h.slotMap| { assert h.slotMap[n..] == h0.slotMap[n..]; }
  }

  /**
   What a flush leaves when the overflow chain could not be rewritten: the handle still points at its
   old chain, whose slots have been freed and may hold blocks of the abandoned new chain. If no slot
   was lost to a block that does not fit, no slot is free, so they all do.
   */
  ghost predicate ChainLost(m0: Instant, m: Instant) {
    && !Short(m.h.total)
    && m.chain == m0.chain && m.h.chain == m0.h.chain
    && (forall s :: s in m0.chain && s in m.nodes ==> m.nodes[s].FileIndex?)
    && (m.lost == m0.lost ==> m.free == [])
  }

  /**
   What a retry of such a flush meets at a slot of the old chain: it is free, and then freed a second
   time, only if the flush lost a slot to a block that does not fit. When the flush ran out of slots,
   the slot holds a block of the abandoned chain instead.
   */
  lemma RetryMeets(c: VnmContainer, m0: Instant, m: Instant, s: nat)
    requires c.Valid() && c.nodes == m.nodes && c.store.free == m.free && c.lost == m.lost
    requires ChainLost(m0, m) && s in m0.chain && c.store.vol.IsDataSlot(s)
    ensures s in m.free <==> s !in m.nodes && s !in m.lost
    ensures s in m.free <==> !FreeList.StrictlyDescending(FreeList.Insert(m.free, s))
    ensures m.lost == m0.lost ==> s !in m.free
    ensures m.lost == m0.lost && s !in m0.lost ==> s in m.nodes && m.nodes[s].FileIndex?
  {
    hide SlotStore.Volume.IsDataSlot;
    FreeList.FreedTwice(m.free, s);
    assert s in m.free <==> s in c.Free();
    assert s in m.nodes || s in c.Free() || s in m.lost;
  }
}
