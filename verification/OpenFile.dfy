/**
 The open-file cache of vnmcore/src/fs/fuse.rs: reading, writing, write-through, truncation and flush
 of one handle, each proved against the plain byte sequence the handle stands for.
 */
module OpenFiles {
  import opened Wrappers
  import opened Bytes
  import opened VaultFs
  import opened Container
  import opened Handle
  import opened IndexChain
  import opened FileState
  import opened FlushLimits
  import opened FlushSteps
  import opened Flushes
  import opened WriteSteps
  import FreeList

  const MAX_CACHE_CHUNKS: nat := 256
  const WRITE_THROUGH_THRESHOLD: nat := MAX_CACHE_CHUNKS / 2

  /** Only appends since `h` and `nodes`: the disk has shown the same bytes in every state since, and still does. */
  ghost predicate StillAppending(h: Handle, nodes: Nodes, h': Handle, nodes': Nodes, history: seq<Nodes>, from: nat) {
    && Appending(h', nodes') && DiskBytes(nodes', h.head, []) == DiskBytes(nodes, h.head, [])
    && Shows(history, from, h.head, DiskBytes(nodes, h.head, []))
  }

  /** Dirty continuation chunks that are in memory. */
  function DirtyCached(h: Handle): set<nat> {
    set i | i in h.dirty && i >= 1 && i in h.cache
  }

  /** Without an overflow chain and without dirty continuation chunks in memory, the flushed disk is known exactly. */
  ghost predicate FlushedAs(h: Handle, chain: seq<nat>, nodes: Nodes, nodes': Nodes) {
    chain == [] && DirtyCached(h) == {} && |KeptIds(h)| <= MAX_DIRECT_SLOTS ==> nodes' == FlushedNodes(h, nodes)
  }

  /** The steps since `nodes0` show nothing on disk: the same recorded size, and the same bytes in every state since. */
  ghost predicate Unseen(h: Handle, nodes0: Nodes, nodes: Nodes, history: seq<Nodes>, from: nat) {
    Behind(h, nodes0) && RecordedSize(nodes0, h.head) <= h.total ==>
      && Behind(h, nodes) && RecordedSize(nodes, h.head) == RecordedSize(nodes0, h.head)
      && DiskBytes(nodes, h.head, []) == DiskBytes(nodes0, h.head, [])
      && Shows(history, from, h.head, DiskBytes(nodes0, h.head, []))
  }

  /** Some dirty chunk in memory does not fit a slot. */
  ghost predicate ChunkTooLarge(c: VnmContainer, h: Handle) {
    exists ci :: ci in DirtyCached(h) && !c.Fits(FileData(h.cache[ci]))
  }

  /** Chunks have come into memory as the disk holds them, and only clean ones have left it. */
  ghost predicate LoadedOnly(h: Handle, h': Handle, nodes: Nodes) {
    && h' == h.(cache := h'.cache)
    && (forall k :: k in h'.cache ==> (k in h.cache && h'.cache[k] == h.cache[k]) || h'.cache[k] == Stored(h, nodes, k))
    && (forall k :: k in h.cache && k in h.dirty ==> k in h'.cache && h'.cache[k] == h.cache[k])
  }

  /** Cache bookkeeping of a read: only clean chunks come and go, and a read-only cache stays within its bound. */
  ghost predicate ReadThrough(h: Handle, h': Handle, nodes: Nodes) {
    && LoadedOnly(h, h', nodes)
    && (h.dirty <= h.cache.Keys ==> h'.dirty <= h'.cache.Keys)
    && (h.dirty == {} && |h.cache| <= MAX_CACHE_CHUNKS ==> |h'.cache| <= MAX_CACHE_CHUNKS)
    && (Appending(h, nodes) ==> Appending(h', nodes))
  }

  /** A read on its way: the file and its bytes stay, whatever was loaded so far. */
  ghost predicate ReadSoFar(h0: Handle, h: Handle, nodes: Nodes, chain: seq<nat>) {
    && FileOk(h, nodes, chain) && FileBytes(h, nodes) == FileBytes(h0, nodes)
    && LoadedOnly(h0, h, nodes)
    && (h0.dirty <= h0.cache.Keys ==> h.dirty <= h.cache.Keys)
    && (h0.dirty == {} && |h0.cache| <= MAX_CACHE_CHUNKS ==> |h.cache| <= MAX_CACHE_CHUNKS)
    && (Behind(h0, nodes) ==> Behind(h, nodes))
  }

  lemma NothingRead(h: Handle, nodes: Nodes, chain: seq<nat>)
    requires FileOk(h, nodes, chain)
    ensures ReadSoFar(h, h, nodes, chain)
  {
    hide FileOk;
    hide FileBytes;
    hide Behind;
  }

  lemma LoadedOneMore(h0: Handle, h: Handle, h': Handle, nodes: Nodes, ci: nat)
    requires LoadedOnly(h0, h, nodes) && Loaded(h, h', nodes, ci)
    ensures LoadedOnly(h0, h', nodes) && h'.dirty == h.dirty == h0.dirty
  {
    forall k | k in h'.cache
      ensures (k in h0.cache && h'.cache[k] == h0.cache[k]) || h'.cache[k] == Stored(h0, nodes, k)
    {
      assert Stored(h, nodes, k) == Stored(h0, nodes, k);
    }
  }

  lemma ReadOneMore(h0: Handle, h: Handle, h': Handle, nodes: Nodes, chain: seq<nat>, ci: nat)
    requires ReadSoFar(h0, h, nodes, chain) && Loaded(h, h', nodes, ci) && ci < ChunkCount(h.total)
    requires h.dirty <= h.cache.Keys ==> h'.dirty <= h'.cache.Keys
    requires |h.cache| < MAX_CACHE_CHUNKS || (|h.cache| == MAX_CACHE_CHUNKS && !(h.cache.Keys <= h.dirty)) ==>
               |h'.cache| <= MAX_CACHE_CHUNKS
    ensures ReadSoFar(h0, h', nodes, chain) && ci in h'.cache
  {
    hide FileOk;
    hide FileBytes;
    hide Behind;
    hide LoadedOnly;
    LoadedKeepsFile(h, h', nodes, chain, ci);
    LoadedOneMore(h0, h, h', nodes, ci);
    if h.dirty == {} && |h.cache| == MAX_CACHE_CHUNKS { assert h.cache.Keys != {}; }
  }

  lemma ReadIs(h0: Handle, h: Handle, nodes: Nodes, chain: seq<nat>)
    requires ReadSoFar(h0, h, nodes, chain)
    ensures ReadThrough(h0, h, nodes) && FileOk(h, nodes, chain) && FileBytes(h, nodes) == FileBytes(h0, nodes)
    ensures h.total == h0.total
  {
    hide FileOk;
    hide FileBytes;
    hide Behind;
    hide RecordedSize;
  }

  /** Cache bookkeeping of a write: dirty chunks stay in memory and, if it succeeds, few are left. */
  ghost predicate WrittenThrough(h: Handle, h': Handle, ok: bool) {
    && (h.dirty <= h.cache.Keys ==> h'.dirty <= h'.cache.Keys)
    && (ok ==> |DirtyCached(h')| <= WRITE_THROUGH_THRESHOLD)
  }

  /**
   Whether a write that has filled the cache like this succeeds: few continuation chunks are dirty, or the
   lowest of them can be stored, so many that half the threshold is left.
   */
  ghost predicate WritesOut(c: VnmContainer, filled: Handle, free: nat) {
    var dirty := Continuations(filled.dirty);
    |dirty| <= WRITE_THROUGH_THRESHOLD
    || exists chosen :: Least(chosen, dirty, |dirty| - WRITE_THROUGH_THRESHOLD / 2) && Storable(c, filled, chosen, free)
  }

  /**
   What write-through makes of a handle with the data in its cache: nothing if few continuation chunks are
   dirty, else the lowest of them leave memory for their slots, on a failure only the first of these.
   */
  ghost predicate Settled(m: Instant, m': Instant, ok: bool) {
    var dirty := Continuations(m.h.dirty);
    if |dirty| <= WRITE_THROUGH_THRESHOLD then m' == m
    else
      && m'.chain == m.chain && TakenOff(m.free, m.lost, m'.free, m'.lost, ok)
      && exists chosen :: Least(chosen, dirty, |dirty| - WRITE_THROUGH_THRESHOLD / 2)
                          && Through(m.h, m.nodes, m'.h, m'.nodes, chosen, ok)
  }

  lemma NothingSettled(m: Instant)
    requires |Continuations(m.h.dirty)| <= WRITE_THROUGH_THRESHOLD
    ensures Settled(m, m, true)
  {
  }

  lemma LowestSettled(m: Instant, m': Instant, ok: bool, chosen: set<nat>)
    requires |Continuations(m.h.dirty)| > WRITE_THROUGH_THRESHOLD
    requires m'.chain == m.chain && TakenOff(m.free, m.lost, m'.free, m'.lost, ok)
    requires Least(chosen, Continuations(m.h.dirty), |Continuations(m.h.dirty)| - WRITE_THROUGH_THRESHOLD / 2)
    requires Through(m.h, m.nodes, m'.h, m'.nodes, chosen, ok)
    ensures Settled(m, m', ok)
  {
    hide Least;
    hide Through;
    hide TakenOff;
  }

  /** The chosen chunks decide. */
  lemma ChosenDecides(c: VnmContainer, filled: Handle, chosen: set<nat>, free: nat)
    requires |Continuations(filled.dirty)| > WRITE_THROUGH_THRESHOLD
    requires Least(chosen, Continuations(filled.dirty), |Continuations(filled.dirty)| - WRITE_THROUGH_THRESHOLD / 2)
    ensures WritesOut(c, filled, free) <==> Storable(c, filled, chosen, free)
  {
    hide Storable;
    hide Least;
    var dirty := Continuations(filled.dirty);
    if t :| Least(t, dirty, |dirty| - WRITE_THROUGH_THRESHOLD / 2) && Storable(c, filled, t, free) {
      LeastUnique(chosen, t, dirty, |dirty| - WRITE_THROUGH_THRESHOLD / 2);
    }
  }

  /** The n least elements are determined. */
  lemma LeastUnique(s: set<nat>, t: set<nat>, all: set<nat>, n: nat)
    requires Least(s, all, n) && Least(t, all, n)
    ensures s == t
  {
    if s <= t {
      SameSize(s, t);
    } else if t <= s {
      SameSize(t, s);
    } else {
      var x, y :| x in s && x !in t && y in t && y !in s;
      LeastBefore(s, all, n, x, y);
      LeastBefore(t, all, n, y, x);
    }
  }

  lemma LeastBefore(s: set<nat>, all: set<nat>, n: nat, x: nat, y: nat)
    requires Least(s, all, n) && x in s && y in all && y !in s
    ensures x < y
  {
    assert y in all - s;
  }

  lemma SameSize(s: set<nat>, t: set<nat>)
    requires s <= t && |s| == |t|
    ensures s == t
  {
    assert t == s + (t - s);
  }

  class OpenFile {
    const ino: nat
    const headSlot: nat
    var totalSize: nat
    var indexChain: Option<nat>
    var slotMap: seq<Option<nat>>
    var cache: map<nat, seq<byte>>
    var dirty: set<nat>
    var metaDirty: bool
    /** The slots of the index chain on disk, in order. */
    ghost var chainSlots: seq<nat>

    function View(): Handle
      reads this
    {
      Handle(headSlot, totalSize, indexChain, slotMap, cache, dirty, metaDirty)
    }

    /** The file at this moment. */
    ghost function At(c: VnmContainer): Instant
      reads this, c, c.store
    {
      Instant(View(), chainSlots, c.nodes, c.store.free, c.lost)
    }

    ghost predicate Valid(nodes: Nodes)
      reads this
    {
      FileOk(View(), nodes, chainSlots)
    }

    /** The file as a plain byte sequence. */
    ghost function Bytes(nodes: Nodes): seq<byte>
      reads this
    {
      FileBytes(View(), nodes)
    }

    ghost function Slots(): set<nat>
      reads this
    {
      Footprint(View(), chainSlots)
    }

    constructor (ino: nat, headSlot: nat, totalSize: nat, indexChain: Option<nat>, slotMap: seq<Option<nat>>,
                 cache: map<nat, seq<byte>>, ghost chainSlots: seq<nat>)
      ensures View() == Handle(headSlot, totalSize, indexChain, slotMap, cache, {}, false)
      ensures this.chainSlots == chainSlots && this.ino == ino && this.headSlot == headSlot
    {
      this.ino := ino;
      this.headSlot := headSlot;
      this.totalSize := totalSize;
      this.indexChain := indexChain;
      this.slotMap := slotMap;
      this.cache := cache;
      dirty := {};
      metaDirty := false;
      this.chainSlots := chainSlots;
    }

    // ── Cache ───────────────────────────────────────────────────────────────

    /** What the disk holds for chunk ci: nothing for a new chunk, an error past the slot map. */
    method FetchChunk(c: VnmContainer, ci: nat) returns (r: Result<seq<byte>, Errno>)
      requires c.Valid() && ci !in cache
      ensures Loadable(View(), c.nodes, ci) ==> r == Ok(Chunk(View(), c.nodes, ci))
      ensures r.Err? ==> r.error == EIO
      ensures ci >= |slotMap| ==> r.Err?
    {
      hide VnmContainer.Valid;
      if ci >= |slotMap| { return Err(EIO); }
      match slotMap[ci] {
        case Some(slot) =>
          var node := c.ReadNode(slot);
          if node.Err? { return Err(EIO); }
          match node.value {
            case File(_, _, _, data) => r := if ci == 0 then Ok(data) else Err(EIO);
            case FileData(bytes) => r := Ok(bytes);
            case _ => r := Err(EIO);
          }
        case None =>
          if ci != 0 { return Ok([]); }
          var node := c.ReadNode(headSlot);
          r := if node.Ok? && node.value.File? then Ok(node.value.data) else Err(EIO);
      }
    }

    /** Make room by dropping one clean chunk when the cache is full, if there is one. */
    method EvictOne()
      modifies this`cache
      ensures forall k :: k in cache ==> k in old(cache) && cache[k] == old(cache)[k]
      ensures forall k :: k in old(cache) && k !in cache ==> k !in dirty
      ensures |old(cache)| < MAX_CACHE_CHUNKS ==> cache == old(cache)
      ensures |old(cache)| == MAX_CACHE_CHUNKS && !(old(cache).Keys <= dirty) ==> |cache| < MAX_CACHE_CHUNKS
    {
      if |cache| >= MAX_CACHE_CHUNKS {
        if k :| k in cache && k !in dirty {
          assert cache.Keys == (cache - {k}).Keys + {k};
          cache := cache - {k};
        }
      }
    }

    /** Load chunk ci into the cache, dropping one clean chunk when the cache is full. */
    method EnsureCached(c: VnmContainer, ci: nat) returns (r: Result<(), Errno>)
      requires c.Valid()
      modifies this`cache
      ensures Loadable(old(View()), c.nodes, ci) ==> r.Ok? && Loaded(old(View()), View(), c.nodes, ci)
      ensures cache.Keys <= old(cache).Keys + {ci}
      ensures old(dirty) <= old(cache).Keys ==> dirty <= cache.Keys
      ensures r.Err? ==> r.error == EIO && cache == old(cache)
      ensures ci !in old(cache) && ci >= |slotMap| ==> r.Err?
      ensures |old(cache)| < MAX_CACHE_CHUNKS || (|old(cache)| == MAX_CACHE_CHUNKS && !(old(cache).Keys <= dirty)) ==>
                |cache| <= MAX_CACHE_CHUNKS
    {
      hide VnmContainer.Valid;
      hide Chunk;
      hide Loadable;
      hide Loaded;
      CachedIsLoadable(View(), c.nodes, ci);
      if ci in cache { return Ok(()); }
      var data := FetchChunk(c, ci);
      if data.Err? { return Err(EIO); }
      ghost var before := View();
      EvictOne();
      InsertLoads(before, cache, c.nodes, ci, data.value);
      cache := cache[ci := data.value];
      r := Ok(());
    }

    // ── Reading ─────────────────────────────────────────────────────────────

    method Read(c: VnmContainer, offset: nat, size: nat) returns (r: Result<seq<byte>, Errno>)
      requires c.Valid() && Valid(c.nodes)
      modifies this`cache
      ensures Valid(c.nodes) && Bytes(c.nodes) == old(Bytes(c.nodes))
      ensures r == Ok(if offset >= totalSize then [] else Bytes(c.nodes)[offset..Min(offset + size, totalSize)])
      ensures ReadThrough(old(View()), View(), c.nodes)
    {
      hide SlotOf;
      hide ChunkCount;
      hide Dense;
      hide Covers;
      hide VnmContainer.Valid;
      hide FileOk;
      hide FileBytes;
      hide Chunk;
      hide Loadable;
      hide Loaded;
      hide ReadThrough;
      hide ReadSoFar;
      ghost var h0 := View();
      NothingRead(h0, c.nodes, chainSlots);
      ReadIs(h0, h0, c.nodes, chainSlots);
      var total := totalSize;
      if offset >= total { return Ok([]); }
      var end := if offset + size < total then offset + size else total;
      var result: seq<byte> := [];
      var pos := offset;
      while pos < end
        invariant offset <= pos <= end <= total
        invariant c.Valid() && ReadSoFar(h0, View(), c.nodes, chainSlots)
        invariant result == FileBytes(h0, c.nodes)[offset..pos]
      {
        var ci := pos / CHUNK_SIZE;
        var off := pos % CHUNK_SIZE;
        ghost var before := View();
        ReadIs(h0, before, c.nodes, chainSlots);
        CoversLoadable(before, c.nodes, chainSlots, pos);
        var e := EnsureCached(c, ci);
        ReadOneMore(h0, before, View(), c.nodes, chainSlots, ci);
        ReadIs(h0, View(), c.nodes, chainSlots);
        CachedReaches(View(), c.nodes, chainSlots, pos);
        var data := cache[ci];
        var have := if |data| > off then |data| - off else 0;
        var take := if have < end - pos then have else end - pos;
        if take == 0 { break; }
        ChunkSlice(View(), c.nodes, chainSlots, pos, take);
        SliceMore(FileBytes(h0, c.nodes), offset, pos, take);
        result := result + data[off..off + take];
        pos := pos + take;
      }
      ReadIs(h0, View(), c.nodes, chainSlots);
      r := Ok(result);
    }

    // ── Writing ─────────────────────────────────────────────────────────────

    /** Patch the bytes `d` of a write ending at `end` into the chunk of position `pos`. */
    method WriteChunk(c: VnmContainer, pos: nat, d: seq<byte>, end: nat, ghost size: nat) returns (r: Result<(), Errno>)
      requires c.Valid() && SlotsOk(View(), c.nodes) && Covers(View(), c.nodes, size)
      requires d != [] && pos % CHUNK_SIZE + |d| <= CHUNK_SIZE
      modifies this`slotMap, this`cache, this`dirty, this`totalSize, this`metaDirty
      ensures r.Ok? && SlotsOk(View(), c.nodes)
      ensures pos <= size ==>
                && Covers(View(), c.nodes, Max(size, pos + |d|))
                && Contents(View(), c.nodes, Max(size, pos + |d|)) ==
                  Splice(old(Contents(View(), c.nodes, size)), pos, d)
      ensures pos > size ==>
                Covers(View(), c.nodes, size) && Contents(View(), c.nodes, size) == old(Contents(View(), c.nodes, size))
      ensures pos / CHUNK_SIZE >= |old(slotMap)| && pos / CHUNK_SIZE !in old(cache) ==>
                View() == ChunkAppended(old(View()), pos, d, end)
      ensures ChunkPatched(old(View()), View(), c.nodes, pos, d, end) && DataSlots(View()) == old(DataSlots(View()))
      ensures old(Behind(View(), c.nodes)) && RecordedSize(c.nodes, headSlot) <= pos ==> Behind(View(), c.nodes)
    {
      hide Patched;
      hide ChunkPatched;
      hide DiskView;
      hide VnmContainer.Valid;
      hide Covers;
      hide SlotsOk;
      hide Behind;
      hide Contents;
      hide Chunk;
      hide Loadable;
      var ci := pos / CHUNK_SIZE;
      var coff := pos % CHUNK_SIZE;
      ghost var h0 := View();
      ExtendSlotMap(c, ci, size);
      ghost var h1 := View();
      if ci !in cache {
        LoadOrCreate(c, ci, size);
      }
      ghost var h2 := View();
      SlotMapStarts(h0, c.nodes);
      PatchCached(c, pos, d, end, size);
      ChunkPatchedIs(h0, h1, h2, View(), c.nodes, pos, d, end);
      if ci >= |h0.slotMap| && ci !in h0.cache { AppendedIs(h0, h1, h2, View(), pos, d, end); }
      r := Ok(());
    }

    /** Patch the cached chunk of position `pos` and raise the total size. */
    method PatchCached(c: VnmContainer, pos: nat, d: seq<byte>, end: nat, ghost size: nat)
      requires SlotsOk(View(), c.nodes) && Covers(View(), c.nodes, size)
      requires d != [] && pos % CHUNK_SIZE + |d| <= CHUNK_SIZE
      requires pos / CHUNK_SIZE in cache && pos / CHUNK_SIZE < |slotMap|
      modifies this`cache, this`dirty, this`totalSize, this`metaDirty
      ensures SlotsOk(View(), c.nodes)
      ensures pos <= size ==>
                && Covers(View(), c.nodes, Max(size, pos + |d|))
                && Contents(View(), c.nodes, Max(size, pos + |d|)) ==
                  Splice(old(Contents(View(), c.nodes, size)), pos, d)
      ensures pos > size ==>
                Covers(View(), c.nodes, size) && Contents(View(), c.nodes, size) == old(Contents(View(), c.nodes, size))
      ensures Patched(old(View()), View(), pos, d)
      ensures totalSize == Max(end, old(totalSize))
      ensures metaDirty <==> old(metaDirty) || totalSize != old(totalSize)
      ensures dirty == old(dirty) + {pos / CHUNK_SIZE} && cache.Keys == old(cache).Keys
      ensures old(Behind(View(), c.nodes)) && RecordedSize(c.nodes, headSlot) <= pos ==> Behind(View(), c.nodes)
    {
      hide Covers;
      hide SlotsOk;
      hide Behind;
      hide Contents;
      hide Chunk;
      ghost var h0 := View();
      var ci := pos / CHUNK_SIZE;
      var coff := pos % CHUNK_SIZE;
      var chunk := cache[ci];
      var writeEnd := coff + |d|;
      if |chunk| < writeEnd { chunk := chunk + Zeros(writeEnd - |chunk|); }
      cache := cache[ci := chunk[..coff] + d + chunk[writeEnd..]];
      dirty := dirty + {ci};
      var newTotal := if end > totalSize then end else totalSize;
      if newTotal != totalSize {
        totalSize := newTotal;
        metaDirty := true;
      }
      assert Patched(h0, View(), pos, d);
      PatchedSlots(h0, View(), c.nodes, pos, d);
      if pos <= size {
        PatchCovers(h0, View(), c.nodes, size, pos, d);
        PatchSplices(h0, View(), c.nodes, size, pos, d);
      } else {
        PatchBeyond(h0, View(), c.nodes, size, pos, d);
      }
      if Behind(h0, c.nodes) && RecordedSize(c.nodes, headSlot) <= pos {
        PatchStaysBehind(h0, View(), c.nodes, pos, d);
      }
    }

    /** Grow the slot map with unallocated entries until it covers chunk ci. */
    method ExtendSlotMap(c: VnmContainer, ci: nat, ghost size: nat)
      requires SlotsOk(View(), c.nodes) && Covers(View(), c.nodes, size)
      modifies this`slotMap, this`metaDirty
      ensures SlotsOk(View(), c.nodes) && Covers(View(), c.nodes, size)
      ensures Contents(View(), c.nodes, size) == old(Contents(View(), c.nodes, size))
      ensures ci < |slotMap|
      ensures |slotMap| == Max(|old(slotMap)|, ci + 1) && slotMap == old(slotMap) + Unmapped(|slotMap| - |old(slotMap)|)
      ensures DataSlots(View()) == old(DataSlots(View()))
      ensures metaDirty <==> old(metaDirty) || slotMap != old(slotMap)
      ensures old(Behind(View(), c.nodes)) ==> Behind(View(), c.nodes)
    {
      hide Covers;
      hide SlotsOk;
      hide Behind;
      hide Contents;
      hide DataSlots;
      while |slotMap| <= ci
        invariant SlotsOk(View(), c.nodes) && Covers(View(), c.nodes, size)
        invariant Contents(View(), c.nodes, size) == old(Contents(View(), c.nodes, size))
        invariant DataSlots(View()) == old(DataSlots(View()))
        invariant |old(slotMap)| <= |slotMap| <= Max(|old(slotMap)|, ci + 1)
        invariant slotMap == old(slotMap) + Unmapped(|slotMap| - |old(slotMap)|)
        invariant metaDirty <==> old(metaDirty) || |slotMap| > |old(slotMap)|
        invariant old(Behind(View(), c.nodes)) ==> Behind(View(), c.nodes)
        decreases ci + 1 - |slotMap|
      {
        ghost var before := View();
        slotMap := slotMap + [None];
        metaDirty := true;
        PushKeeps(before, View(), c.nodes, size);
        PushKeepsSlots(before, View(), c.nodes);
      }
    }

    /** Bring chunk ci into the cache: from disk if it has a slot or is chunk 0, else as zeros. */
    method LoadOrCreate(c: VnmContainer, ci: nat, ghost size: nat)
      requires c.Valid() && SlotsOk(View(), c.nodes) && Covers(View(), c.nodes, size)
      requires ci !in cache && ci < |slotMap|
      modifies this`cache
      ensures CameIn(old(View()), View(), c.nodes, ci)
      ensures slotMap[ci] == None && ci != 0 ==> cache == old(cache)[ci := Zeros(CHUNK_SIZE)]
      ensures SlotsOk(View(), c.nodes) && Covers(View(), c.nodes, size)
      ensures Contents(View(), c.nodes, size) == old(Contents(View(), c.nodes, size))
      ensures old(dirty) <= old(cache).Keys ==> dirty <= cache.Keys
      ensures old(Behind(View(), c.nodes)) ==> Behind(View(), c.nodes)
    {
      hide VnmContainer.Valid;
      hide Contents;
      hide Behind;
      hide SlotsOk;
      hide Covers;
      hide Loaded;
      hide Loadable;
      hide CameIn;
      ghost var before := View();
      if slotMap[ci].Some? || ci == 0 {
        AllocatedIsLoadable(before, c.nodes, ci);
        var e := EnsureCached(c, ci);
        LoadedCameIn(before, View(), c.nodes, ci);
        LoadedKeeps(before, View(), c.nodes, ci, size);
        if Behind(before, c.nodes) { LoadedBehind(before, View(), c.nodes, ci); }
      } else {
        cache := cache[ci := Zeros(CHUNK_SIZE)];
        ZerosCameIn(before, c.nodes, ci);
        UnallocatedIsNew(before, c.nodes, ci, size);
        NewChunkKeeps(before, View(), c.nodes, ci, size);
        if Behind(before, c.nodes) { NewChunkBehind(before, View(), c.nodes, ci); }
      }
    }

    /** `filled` is the handle before any of its chunks was stored. */
    method Write(c: VnmContainer, offset: nat, data: seq<byte>) returns (r: Result<nat, Errno>, ghost filled: Handle)
      requires c.Valid() && Valid(c.nodes)
      modifies this, c, c.store
      ensures c.Valid() && chainSlots == old(chainSlots)
      ensures Touched(old(View()), old(chainSlots), old(c.nodes), View(), chainSlots, c.nodes)
      ensures Filled(old(View()), old(c.nodes), chainSlots, offset, data, filled)
      ensures Linked(View(), c.nodes, chainSlots) && Bytes(c.nodes) == FileBytes(filled, old(c.nodes))
      ensures Valid(c.nodes) <==> FileOk(filled, old(c.nodes), chainSlots)
      ensures offset <= old(totalSize) ==> Valid(c.nodes) && Bytes(c.nodes) == Splice(old(Bytes(c.nodes)), offset, data)
      ensures r.Ok? <==> WritesOut(c, filled, |old(c.store.free)|)
      ensures Settled(old(At(c)).(h := filled), At(c), r.Ok?)
      ensures r.Ok? ==> r.value == |data| && c.lost == old(c.lost) && |DirtyCached(View())| <= WRITE_THROUGH_THRESHOLD
      ensures r.Err? ==>
                && r.error == EIO
                && (c.Free() == {} || exists ci :: ci in DirtyCached(View()) && !c.Fits(FileData(cache[ci])))
      ensures old(dirty) <= old(cache).Keys ==> dirty <= cache.Keys
      ensures old(c.history) <= c.history
      ensures old(Appending(View(), c.nodes)) && old(RecordedSize(c.nodes, headSlot)) <= offset ==>
                StillAppending(old(View()), old(c.nodes), View(), c.nodes, c.history, |old(c.history)|)
    {
      hide VnmContainer.Valid;
      hide VnmContainer.Fits;
      hide FileOk;
      hide Behind;
      hide DiskBytes;
      hide FileBytes;
      hide RecordedSize;
      hide Storable;
      hide Filled;
      hide Settled;
      hide Through;
      hide TakenOff;
      hide Least;
      hide Linked;
      ghost var h0, chain, nodes := View(), chainSlots, c.nodes;
      WriteIntoCache(c, offset, data);
      ghost var h1 := View();
      FilledParts(h0, nodes, chain, offset, data, h1);
      filled := h1;
      assert Touched(h0, chain, nodes, h1, chain, nodes);
      var dirtyCont := |Continuations(dirty)|;
      CountSubset(DirtyCached(View()), Continuations(dirty));
      if dirtyCont > WRITE_THROUGH_THRESHOLD {
        ghost var chosen;
        var w;
        w, chosen := WriteThroughFlush(c, dirtyCont - WRITE_THROUGH_THRESHOLD / 2);
        TouchedTrans(h0, chain, nodes, h1, chain, nodes, View(), chain, c.nodes);
        DiskLength(nodes, headSlot);
        DiskLength(c.nodes, headSlot);
        ChosenDecides(c, filled, chosen, |old(c.store.free)|);
        LowestSettled(old(At(c)).(h := filled), At(c), w.Ok?, chosen);
        if w.Err? { return Err(EIO), filled; }
      } else {
        NothingSettled(At(c));
      }
      DiskLength(nodes, headSlot);
      DiskLength(c.nodes, headSlot);
      r := Ok(|data|);
    }

    /** The write loop: chunk by chunk into the cache, the disk untouched. */
    method WriteIntoCache(c: VnmContainer, offset: nat, data: seq<byte>)
      requires c.Valid() && Valid(c.nodes)
      modifies this`slotMap, this`cache, this`dirty, this`totalSize, this`metaDirty
      ensures Filled(old(View()), c.nodes, chainSlots, offset, data, View())
      ensures Touched(old(View()), chainSlots, c.nodes, View(), chainSlots, c.nodes)
      ensures old(dirty) <= old(cache).Keys ==> dirty <= cache.Keys
      ensures old(Behind(View(), c.nodes)) && RecordedSize(c.nodes, headSlot) <= offset ==> Behind(View(), c.nodes)
    {
      hide LongerMap;
      hide Touches;
      hide BooksOf;
      hide CacheOf;
      hide WrittenUpTo;
      hide ChunkPatched;
      hide VnmContainer.Valid;
      hide Behind;
      hide SlotsOk;
      hide Covers;
      hide Contents;
      hide DataSlots;
      hide FileOk;
      hide FileBytes;
      hide KeysBelow;
      hide ChunkCount;
      hide Splice;
      hide Filled;
      hide Linked;
      FileParts(View(), c.nodes, chainSlots);
      ghost var h0, total, b := View(), totalSize, FileBytes(View(), c.nodes);
      var end := offset + |data|;
      NothingWritten(h0, c.nodes, offset, data);
      NothingShown(b, offset);
      KeysHigher(h0, total, offset);
      var pos := offset;
      while pos < end
        invariant offset <= pos <= end
        invariant SlotsOk(View(), c.nodes) && Covers(View(), c.nodes, Reached(total, offset, pos))
        invariant KeysBelow(View(), Max(1, ChunkCount(Max(total, pos))))
        invariant Contents(View(), c.nodes, Reached(total, offset, pos)) ==
                    SplicedSoFar(b, offset, data[..pos - offset])
        invariant WrittenUpTo(h0, c.nodes, offset, data, pos, View()) && (pos == offset ==> View() == h0)
        invariant old(Behind(View(), c.nodes)) && RecordedSize(c.nodes, headSlot) <= offset ==> Behind(View(), c.nodes)
      {
        ghost var before := View();
        AtBoundary(h0, c.nodes, offset, data, pos, before);
        var coff := pos % CHUNK_SIZE;
        var take := if CHUNK_SIZE - coff < end - pos then CHUNK_SIZE - coff else end - pos;
        var d := data[pos - offset..pos - offset + take];
        SplicedMore(b, offset, data, pos - offset, take);
        var e := WriteChunk(c, pos, d, end, Reached(total, offset, pos));
        KeysStep(before, View(), c.nodes, total, pos, d, end);
        OneMoreWritten(h0, c.nodes, offset, data, pos, before, View(), take);
        pos := pos + take;
      }
      assert data[..|data|] == data;
      AllWritten(h0, c.nodes, offset, data, View());
      IsFilled(h0, View(), c.nodes, chainSlots, offset, data);
    }

    // ── Write-through ───────────────────────────────────────────────────────

    /** Write one cached chunk to its data slot, allocating one if it has none. */
    method StoreChunk(c: VnmContainer, ci: nat) returns (r: Result<(), Errno>, ghost slot: nat)
      requires c.Valid() && SlotsOk(View(), c.nodes) && 1 <= ci < |slotMap| && ci in cache
      modifies this`slotMap, this`metaDirty, c, c.store
      ensures c.Valid()
      ensures r.Ok? ==>
                && ChunkWritten(old(View()), View().(dirty := dirty - {ci}), old(c.nodes), c.nodes, ci, slot)
                && c.history == old(c.history) + [c.nodes] && c.lost == old(c.lost)
      ensures r.Ok? <==> OneStorable(c, old(View()), ci, |old(c.store.free)|)
      ensures r.Ok? ==>
                && ChunkPlaced(old(View()), View(), ci)
                && |c.store.free| + Takes(old(View()), ci) == |old(c.store.free)|
                && (metaDirty <==> old(metaDirty) || Takes(old(View()), ci) == 1)
      ensures !metaDirty ==> !old(metaDirty) && slotMap == old(slotMap)
      ensures r.Err? ==>
                && r.error == EIO && View() == old(View()) && c.nodes == old(c.nodes) && c.history == old(c.history)
                && (c.Free() == {} || !c.Fits(FileData(cache[ci])))
      ensures TakenOff(old(c.store.free), old(c.lost), c.store.free, c.lost, r.Ok?)
    {
      hide VnmContainer.Valid;
      hide VnmContainer.Fits;
      hide Takes;
      TakesWhen(View(), ci);
      var node := FileData(cache[ci]);
      match slotMap[ci] {
        case Some(slotId) =>
          slot := slotId;
          var u := c.UpdateNode(slotId, node);
          if u.Err? { return Err(EIO), slot; }
          assert slotMap[ci := Some(slot)] == slotMap;
        case None =>
          slot := 0;
          var w := c.WriteNode(node);
          if w.Err? { return Err(EIO), slot; }
          slot := w.value;
          slotMap := slotMap[ci := Some(w.value)];
          metaDirty := true;
      }
      r := Ok(());
    }

    /** Write chunk ci through to disk and drop it from the cache, if it is in memory. */
    method WriteOneThrough(c: VnmContainer, ci: nat) returns (r: Result<(), Errno>)
      requires c.Valid() && Linked(View(), c.nodes, chainSlots) && ci >= 1 && ci in dirty
      modifies this`slotMap, this`metaDirty, this`cache, this`dirty, c, c.store
      ensures c.Valid() && Linked(View(), c.nodes, chainSlots) && (Valid(c.nodes) <==> old(Valid(c.nodes)))
      ensures Bytes(c.nodes) == old(Bytes(c.nodes))
      ensures Touched(old(View()), chainSlots, old(c.nodes), View(), chainSlots, c.nodes)
      ensures old(dirty) - {ci} <= dirty <= old(dirty) && cache.Keys <= old(cache).Keys
      ensures r.Ok? ==> c.lost == old(c.lost) && (ci !in dirty || ci !in cache)
      ensures r.Ok? <==> OneStorable(c, old(View()), ci, |old(c.store.free)|)
      ensures r.Ok? ==>
                && ChunkPlaced(old(View()), View(), ci) && ChunkGone(old(View()), old(c.nodes), View(), c.nodes, ci)
                && |c.store.free| + Takes(old(View()), ci) == |old(c.store.free)|
      ensures TakenOff(old(c.store.free), old(c.lost), c.store.free, c.lost, r.Ok?)
      ensures r.Err? ==>
                && r.error == EIO && View() == old(View()) && c.nodes == old(c.nodes) && ci in cache
                && (c.Free() == {} || !c.Fits(FileData(cache[ci])))
      ensures old(dirty) <= old(cache).Keys ==> dirty <= cache.Keys
      ensures c.history == old(c.history) || c.history == old(c.history) + [c.nodes]
      ensures old(Behind(View(), c.nodes)) ==>
                Behind(View(), c.nodes) && DiskBytes(c.nodes, headSlot, []) == old(DiskBytes(c.nodes, headSlot, []))
    {
      hide VnmContainer.Valid;
      hide FileOk;
      hide Linked;
      hide Behind;
      hide ChunkWritten;
      hide Touched;
      hide DiskBytes;
      hide FileBytes;
      hide VnmContainer.Fits;
      hide Takes;
      ghost var before, nodes := View(), c.nodes;
      LinkedParts(before, nodes, chainSlots);
      TakesWhen(before, ci);
      if ci in cache && ci < |slotMap| {
        ghost var slot;
        r, slot := StoreChunk(c, ci);
        if r.Err? {
          return;
        }
        ghost var stored := View();
        dirty := dirty - {ci};
        cache := cache - {ci};
        ChunkDropped(before, stored, View(), nodes, c.nodes, ci, slot);
        GoneIs(before, nodes, View(), c.nodes, ci, slot);
        ChunkStep(before, View(), nodes, c.nodes, chainSlots, ci, slot);
      }
      r := Ok(());
    }

    /** Write the n lowest dirty continuation chunks to disk and drop them from the cache. */
    method WriteThroughFlush(c: VnmContainer, n: nat) returns (r: Result<(), Errno>, ghost chosen: set<nat>)
      requires c.Valid() && Linked(View(), c.nodes, chainSlots)
      modifies this`slotMap, this`metaDirty, this`cache, this`dirty, c, c.store
      ensures c.Valid() && Linked(View(), c.nodes, chainSlots) && (Valid(c.nodes) <==> old(Valid(c.nodes)))
      ensures Bytes(c.nodes) == old(Bytes(c.nodes))
      ensures Touched(old(View()), chainSlots, old(c.nodes), View(), chainSlots, c.nodes)
      ensures Least(chosen, Continuations(old(dirty)), n)
      ensures Through(old(View()), old(c.nodes), View(), c.nodes, chosen, r.Ok?)
      ensures TakenOff(old(c.store.free), old(c.lost), c.store.free, c.lost, r.Ok?)
      ensures r.Ok? <==> Storable(c, old(View()), chosen, |old(c.store.free)|)
      ensures r.Ok? ==> c.lost == old(c.lost)
      ensures r.Ok? && n <= |Continuations(old(dirty))| ==>
                |DirtyCached(View())| <= |Continuations(old(dirty))| - n
      ensures r.Err? ==>
                && r.error == EIO
                && (c.Free() == {} || exists ci :: ci in DirtyCached(View()) && !c.Fits(FileData(cache[ci])))
      ensures old(dirty) <= old(cache).Keys ==> dirty <= cache.Keys
      ensures old(c.history) <= c.history
      ensures old(Behind(View(), c.nodes)) ==>
                && Behind(View(), c.nodes)
                && DiskBytes(c.nodes, headSlot, []) == old(DiskBytes(c.nodes, headSlot, []))
                && Shows(c.history, |old(c.history)|, headSlot, old(DiskBytes(c.nodes, headSlot, [])))
    {
      hide VnmContainer.Valid;
      hide VnmContainer.Fits;
      hide FileOk;
      hide Linked;
      hide Behind;
      hide Touched;
      hide DiskBytes;
      hide FileBytes;
      hide DirtyCached;
      hide Lowest;
      hide KeptSince;
      hide Shows;
      hide RecordedSize;
      hide Storable;
      hide OneStorable;
      hide ChunkPlaced;
      hide Takes;
      hide ChunkGone;
      hide StoredThrough;
      hide Through;
      hide TakenOff;
      ghost var h0, nodes0, from := View(), c.nodes, |c.history|;
      var toFlush := LowestContinuations(dirty, n);
      LowestInside(toFlush, Continuations(dirty));
      LowestIsLeast(toFlush, Continuations(dirty), n);
      chosen := SlotSet(toFlush);
      ThroughStarts(h0, nodes0, toFlush, c.store.free, c.lost);
      KeptStarts(h0, nodes0, chainSlots, c.history);
      var k := 0;
      assert toFlush[0..] == toFlush;
      while k < |toFlush|
        invariant 0 <= k <= |toFlush|
        invariant c.Valid() && KeptSince(h0, nodes0, View(), c.nodes, chainSlots, c.history, from)
        invariant StoredThrough(h0, nodes0, View(), c.nodes, InMemory(h0, toFlush, k))
        invariant TakenOff(old(c.store.free), old(c.lost), c.store.free, c.lost, true) && c.lost == old(c.lost)
        invariant dirty <= old(dirty) && DirtyCached(View()) !! SlotSet(toFlush[..k])
        invariant SlotSet(toFlush[k..]) <= dirty
        invariant Storable(c, h0, chosen, |old(c.store.free)|) <==>
                    Storable(c, View(), SlotSet(toFlush[k..]), |c.store.free|)
        invariant old(dirty) <= old(cache).Keys ==> dirty <= cache.Keys
        invariant old(c.history) <= c.history
      {
        var ci := toFlush[k];
        assert toFlush[..k + 1] == toFlush[..k] + [ci] && ci in SlotSet(toFlush);
        LowestNth(toFlush, Continuations(old(dirty)), k);
        ghost var before, nodes, free, lost, history := View(), c.nodes, c.store.free, c.lost, c.history;
        SinceParts(h0, nodes0, before, nodes, chainSlots, history, from);
        r := WriteOneThrough(c, ci);
        DiskLength(nodes, headSlot);
        DiskLength(c.nodes, headSlot);
        KeptStep(h0, nodes0, before, nodes, View(), c.nodes, chainSlots, history, c.history, from);
        SinceParts(h0, nodes0, View(), c.nodes, chainSlots, c.history, from);
        TakenOn(old(c.store.free), old(c.lost), free, lost, c.store.free, c.lost, r.Ok?);
        if r.Err? {
          ThroughPart(h0, nodes0, View(), c.nodes, toFlush, k);
          StoreFails(c, before, SlotSet(toFlush[k..]), ci, |free|);
          InDirtyCached(View(), ci);
          return;
        }
        StoreStep(c, before, View(), SlotSet(toFlush[k..]), ci, |free|);
        ThroughMore(h0, nodes0, before, nodes, View(), c.nodes, chainSlots, toFlush, k);
        DirtyCachedShrinks(before, View(), toFlush[..k], ci);
        k := k + 1;
      }
      assert toFlush[..k] == toFlush && SlotSet(toFlush[k..]) == {};
      ThroughAll(h0, nodes0, View(), c.nodes, toFlush);
      SinceParts(h0, nodes0, View(), c.nodes, chainSlots, c.history, from);
      NothingToStore(c, View(), |c.store.free|);
      DirtyCachedInside(View());
      assert Continuations(dirty) <= Continuations(old(dirty));
      CountRemaining(DirtyCached(View()), old(dirty), toFlush, n);
      r := Ok(());
    }

    // ── Truncation ──────────────────────────────────────────────────────────

    /** `op_setattr_size` through a handle: a smaller size takes a prefix. */
    method SetSize(newSize: nat, ghost nodes: Nodes)
      requires Valid(nodes)
      modifies this`cache, this`dirty, this`totalSize, this`metaDirty
      ensures newSize <= old(totalSize) ==> Valid(nodes) && Bytes(nodes) == old(Bytes(nodes))[..newSize]
      ensures newSize < old(totalSize) ==> View() == Shrunk(old(View()), newSize)
      ensures newSize == old(totalSize) ==> View() == old(View())
      ensures newSize > old(totalSize) ==>
                && View() == old(View()).(total := newSize, metaDirty := true)
                && (Valid(nodes) <==> Covers(old(View()), nodes, newSize))
                && Bytes(nodes)[..old(totalSize)] == old(Bytes(nodes))
                && Bytes(nodes) == Contents(old(View()), nodes, newSize)
    {
      hide FileBytes;
      hide FileOk;
      hide Covers;
      hide Contents;
      if newSize == totalSize { return; }
      ghost var h0 := View();
      if newSize < totalSize {
        var lastCi := if newSize == 0 then 0 else (newSize - 1) / CHUNK_SIZE;
        var lastSz := if newSize == 0 then Some(0) else ChunkActualSize(lastCi, newSize);
        var clamp := if lastSz.Some? then lastSz.value else 0;
        cache := map k | k in cache && k <= lastCi :: cache[k];
        dirty := set k | k in dirty && k <= lastCi;
        if lastCi in cache { cache := cache[lastCi := Truncate(cache[lastCi], clamp)]; }
        if newSize > 0 { dirty := dirty + {lastCi}; }
        assert cache == Shrunk(h0, newSize).cache && dirty == Shrunk(h0, newSize).dirty;
        ShrunkFile(h0, nodes, chainSlots, newSize);
      } else {
        Extended(h0, nodes, chainSlots, newSize);
      }
      totalSize := newSize;
      metaDirty := true;
    }

    // ── Flush ───────────────────────────────────────────────────────────────

    /**
     Persist what is dirty; on success the disk alone holds the file. A failure keeps the file's bytes,
     and the file itself unless its overflow chain was being rewritten.
     */
    method Flush(c: VnmContainer) returns (r: Result<(), Errno>)
      requires c.Valid() && Valid(c.nodes)
      modifies this, c, c.store
      ensures c.Valid() && cache == old(cache) && totalSize == old(totalSize)
      ensures FlushLeaves(c, old(At(c)), At(c), r.Ok?)
      ensures Short(totalSize) || BlocksFit(c) ==>
                (r.Ok? <==> Clean(old(View()))
                            || GoesThrough(c, old(View()), old(chainSlots), |old(c.store.free)|, View(), c.nodes))
      ensures r.Ok? ==>
                && FileKept(old(At(c)), At(c)) && Clean(View()) && c.lost == old(c.lost)
                && FlushedAs(old(View()), old(chainSlots), old(c.nodes), c.nodes)
                && DiskOk(c.nodes, headSlot, chainSlots)
                && DiskBytes(c.nodes, headSlot, chainSlots) == old(Bytes(c.nodes))
      ensures Clean(old(View())) ==> r.Ok? && At(c) == old(At(c)) && c.history == old(c.history)
      ensures r.Err? ==> r.error == EIO && dirty == old(dirty) && FlushFails(old(At(c)), At(c))
      ensures OutsideKept(old(At(c)), At(c))
      ensures old(c.history) <= c.history && FlushSeen(old(At(c)), At(c), c.history, |old(c.history)|, r.Ok?)
      ensures r.Ok? && indexChain == None ==>
                Appending(View(), c.nodes) && DiskBytes(c.nodes, headSlot, []) == Bytes(c.nodes)
    {
      hide VnmContainer.Valid;
      hide VnmContainer.Fits;
      hide FileOk;
      hide DiskBytes;
      hide FileBytes;
      hide FlushedAs;
      hide FlushLeaves;
      hide FlushFails;
      hide FlushSeen;
      hide OutsideKept;
      hide FileKept;
      hide GoesThrough;
      hide BlocksFit;
      hide DiskOk;
      hide Appending;
      ghost var m0 := At(c);
      if dirty == {} && !metaDirty {
        CleanFlush(c, m0, c.history);
        NothingFlushed(m0.h, m0.chain, m0.nodes);
        r := Ok(());
      } else {
        r := Persist(c);
      }
      if r.Ok? {
        KeptParts(m0, At(c));
        KeptIsKept(m0, At(c));
        CleanReopens(View(), c.nodes, chainSlots);
        CleanAppends(View(), c.nodes, chainSlots);
      } else {
        FailsParts(m0, At(c));
      }
    }

    /** The flush of a handle that has something to persist. */
    method Persist(c: VnmContainer) returns (r: Result<(), Errno>)
      requires c.Valid() && Valid(c.nodes) && !Clean(View())
      modifies this, c, c.store
      ensures c.Valid() && cache == old(cache) && totalSize == old(totalSize)
      ensures FlushLeaves(c, old(At(c)), At(c), r.Ok?)
      ensures Short(totalSize) || BlocksFit(c) ==>
                (r.Ok? <==> GoesThrough(c, old(View()), old(chainSlots), |old(c.store.free)|, View(), c.nodes))
      ensures r.Ok? ==>
                && FileKept(old(At(c)), At(c)) && Clean(View()) && c.lost == old(c.lost)
                && FlushedAs(old(View()), old(chainSlots), old(c.nodes), c.nodes)
      ensures r.Err? ==> r.error == EIO && dirty == old(dirty) && FlushFails(old(At(c)), At(c))
      ensures old(c.history) <= c.history && FlushSeen(old(At(c)), At(c), c.history, |old(c.history)|, r.Ok?)
    {
      hide VnmContainer.Valid;
      hide VnmContainer.Fits;
      hide FileOk;
      hide FinishedNodes;
      hide FlushedAs;
      hide KeptIds;
      hide DirtyCached;
      hide FlushLeaves;
      hide StoredAll;
      hide RestLeaves;
      hide FlushFails;
      hide FlushSeen;
      hide StepSeen;
      hide FileKept;
      hide SlotsGiven;
      hide TakenOff;
      hide GoesThrough;
      hide FinishFits;
      hide Placing;
      hide Storable;
      hide BlocksFit;
      ghost var m0 := At(c);
      r := FlushDirtyChunks(c);
      ghost var m1, history := At(c), c.history;
      if r.Err? {
        KeptIsKept(m0, m1);
        SeenOnly(m0, m1, history, |old(c.history)|, false);
        NotStored(c, m0, m1);
        return;
      }
      KeptParts(m0, m1.Marked(dirty * {0}));
      ghost var small := Short(totalSize) || BlocksFit(c);
      if small { RestDecides(c, m0.h, m0.nodes, m0.chain, |m0.free|, m1.h); }
      r := FinishFlush(c, dirty * {0});
      FlushDone(c, m0, m1, At(c), history, c.history, |old(c.history)|, r.Ok?);
      if r.Ok? { FlushedIs(m0.h, m0.chain, m0.nodes, m1.h, m1.nodes, c.nodes); }
    }

    /** Steps 2 and 3, once every dirty continuation chunk in memory is on disk. */
    method FinishFlush(c: VnmContainer, ghost d: set<nat>) returns (r: Result<(), Errno>)
      requires c.Valid() && FileOk(View().(dirty := d), c.nodes, chainSlots) && d == dirty * {0}
      modifies this`indexChain, this`slotMap, this`dirty, this`metaDirty, this`chainSlots, c, c.store
      ensures c.Valid()
      ensures RestLeaves(old(At(c)), At(c), r.Ok?)
      ensures r.Ok? <==> FinishFits(c, old(View()), old(chainSlots), old(c.store.free), View(), c.nodes)
      ensures r.Ok? ==> FileKept(old(At(c)).Marked(d), At(c)) && Clean(View()) && c.lost == old(c.lost)
      ensures r.Ok? && old(chainSlots) == [] && |KeptIds(old(View()))| <= MAX_DIRECT_SLOTS ==>
                c.nodes == FinishedNodes(old(View()), old(c.nodes))
      ensures r.Err? ==> r.error == EIO && dirty == old(dirty) && FlushFails(old(At(c)).Marked(d), At(c).Marked(d))
      ensures old(c.history) <= c.history
      ensures FlushSeen(old(At(c)).Marked(d), if r.Ok? then At(c) else At(c).Marked(d), c.history,
                        |old(c.history)|, r.Ok?)
    {
      hide SlotsOk;
      hide Covers;
      hide KeysBelow;
      hide ChunkCount;
      hide Short;
      hide VnmContainer.Valid;
      hide VnmContainer.Fits;
      hide FileOk;
      hide FinishedNodes;
      hide KeptIds;
      hide Allocated;
      hide NewHead;
      hide Drained;
      hide ChainFits;
      hide ExcessIds;
      hide FreedAll;
      hide HeadToWrite;
      hide Rewrites;
      hide ChainTook;
      hide RestLeaves;
      hide FileKept;
      hide FlushFails;
      hide FlushSeen;
      hide StepSeen;
      hide FinishFits;
      hide Overflow;
      hide SlotSet;
      hide Footprint;
      hide Touched;
      ghost var m0 := At(c);
      FileOkSlots(m0.h.(dirty := d), m0.nodes, m0.chain);
      DrainExcessSlots(c, d);
      ghost var m2, history := At(c), c.history;
      DrainedParts(m0.h, m2.h, m0.nodes, m2.nodes, d);
      KeptParts(m0.Marked(d), m2.Marked(d));
      NoRewrite(c, m0, View(), c.nodes);
      if metaDirty || 0 in dirty {
        r := WriteHead(c, d);
        RestFits(c, m0, m2, At(c), d, r.Ok?);
        RestIs(m0, m2.h, m2.nodes, At(c), d, r.Ok?);
        AfterDrain(m0.Marked(d), m2.Marked(d), At(c), d, history, c.history, |old(c.history)|, r.Ok?);
        if r.Err? { return; }
      } else {
        RestUntouched(m0, m2.h, m2.nodes, d);
        SeenOnly(m0.Marked(d), m2.Marked(d), history, |old(c.history)|, true);
        assert m2.Marked(d) == At(c).Cleaned();
      }
      dirty := {};
      metaDirty := false;
      FinishedIs(m0.h, m2.h, m0.nodes, m2.nodes, c.nodes, d, m0.chain);
      r := Ok(());
    }

    /** Step 1: every dirty continuation chunk in memory, in any order. */
    method FlushDirtyChunks(c: VnmContainer) returns (r: Result<(), Errno>)
      requires c.Valid() && Valid(c.nodes)
      modifies this`slotMap, this`metaDirty, c, c.store
      ensures c.Valid()
      ensures r.Ok? <==> Storable(c, old(View()), Continuations(dirty), |old(c.store.free)|)
      ensures FileKept(old(At(c)), At(c).Marked(if r.Ok? then dirty * {0} else dirty))
      ensures r.Ok? ==>
                Placing(c, old(View()), |old(c.store.free)|, View(), {}, |c.store.free|) && StoredAll(old(At(c)), At(c))
      ensures r.Err? ==>
                && r.error == EIO && SlotsGiven(old(View()), View())
                && TakenOff(old(c.store.free), old(c.lost), c.store.free, c.lost, false)
      ensures old(DirtyCached(View())) == {} ==> c.nodes == old(c.nodes) && View() == old(View())
      ensures old(c.history) <= c.history
      ensures StepSeen(old(At(c)), At(c).Marked(if r.Ok? then dirty * {0} else dirty), c.history, |old(c.history)|)
    {
      hide Flushing;
      hide KeptSince;
      hide Footprint;
      hide Dense;
      hide VnmContainer.Valid;
      hide FileOk;
      hide Linked;
      hide Behind;
      hide DiskBytes;
      hide FileBytes;
      hide Touched;
      hide DirtyCached;
      hide RecordedSize;
      hide Placing;
      hide OneStorable;
      hide ChunkPlaced;
      hide Takes;
      hide Storable;
      hide Shows;
      hide Unallocated;
      hide SlotsGiven;
      hide TakenOff;
      hide FileKept;
      hide StepSeen;
      hide StoredAll;
      ghost var m0 := At(c);
      ghost var h0, nodes0, from, free0 := View(), c.nodes, |c.history|, |c.store.free|;
      var rest := Continuations(dirty);
      ghost var left := dirty;
      LinkedFile(h0, nodes0, chainSlots);
      KeptStarts(h0, nodes0, chainSlots, c.history);
      FlushingStarts(c, h0, nodes0, free0);
      NothingTaken(c.store.free, c.lost);
      assert View().(dirty := left) == View();
      while rest != {}
        invariant c.Valid() && c.lost == old(c.lost) && old(c.history) <= c.history
        invariant TakenOff(old(c.store.free), c.lost, c.store.free, c.lost, true)
        invariant left <= dirty && rest == Continuations(left)
        invariant KeptSince(h0, nodes0, View().(dirty := left), c.nodes, chainSlots, c.history, from)
        invariant Flushing(c, h0, nodes0, free0, View(), c.nodes, |c.store.free|, left)
        decreases rest
      {
        var ci :| ci in rest;
        ghost var h, g, nodes, free, history := View(), View().(dirty := left), c.nodes, c.store.free, c.history;
        SinceParts(h0, nodes0, g, nodes, chainSlots, history, from);
        r := FlushOne(c, ci, left);
        TakenOn(old(c.store.free), old(c.lost), free, old(c.lost), c.store.free, c.lost, r.Ok?);
        if r.Err? {
          FlushingFails(c, h0, nodes0, free0, h, nodes, |free|, left, ci);
          MoreDirty(h0, nodes0, g, View(), c.nodes, chainSlots);
          StoppedStoring(m0, At(c), g, history, from);
          return;
        }
        FlushingStep(c, h0, nodes0, free0, h, nodes, |free|, View(), c.nodes, |c.store.free|, left, ci);
        LinkedFile(View().(dirty := left - {ci}), c.nodes, chainSlots);
        KeptStep(h0, nodes0, g, nodes, View().(dirty := left - {ci}), c.nodes, chainSlots, history, c.history, from);
        left := left - {ci};
        rest := rest - {ci};
      }
      FlushingEnds(c, h0, nodes0, free0, View(), c.nodes, |c.store.free|, left);
      AllStored(c, m0, At(c), c.history, from);
      r := Ok(());
    }

    /** One chunk of step 1, given that only the chunks in `left` still count as dirty. */
    method FlushOne(c: VnmContainer, ci: nat, ghost left: set<nat>) returns (r: Result<(), Errno>)
      requires c.Valid() && FileOk(View().(dirty := left), c.nodes, chainSlots) && ci in left && ci >= 1
      modifies this`slotMap, this`metaDirty, c, c.store
      ensures c.Valid()
      ensures r.Ok? ==>
                && FileOk(View().(dirty := left - {ci}), c.nodes, chainSlots)
                && FileBytes(View().(dirty := left - {ci}), c.nodes) == old(FileBytes(View().(dirty := left), c.nodes))
                && Touched(old(View().(dirty := left)), chainSlots, old(c.nodes), View().(dirty := left - {ci}),
                           chainSlots, c.nodes)
                && c.lost == old(c.lost)
                && c.history in {old(c.history), old(c.history) + [c.nodes]}
      ensures r.Ok? <==> OneStorable(c, old(View()), ci, |old(c.store.free)|)
      ensures r.Ok? ==>
                && ChunkPlaced(old(View()), View(), ci)
                && |c.store.free| + Takes(old(View()), ci) == |old(c.store.free)|
                && (metaDirty <==> old(metaDirty) || Takes(old(View()), ci) == 1)
      ensures ci !in cache || r.Err? ==> View() == old(View()) && c.nodes == old(c.nodes) && c.history == old(c.history)
      ensures TakenOff(old(c.store.free), old(c.lost), c.store.free, c.lost, r.Ok?)
      ensures r.Err? ==> r.error == EIO
      ensures r.Ok? && old(Behind(View().(dirty := left), c.nodes)) ==>
                && Behind(View().(dirty := left - {ci}), c.nodes)
                && RecordedSize(c.nodes, headSlot) == old(RecordedSize(c.nodes, headSlot))
                && DiskBytes(c.nodes, headSlot, []) == old(DiskBytes(c.nodes, headSlot, []))
    {
      hide VnmContainer.Valid;
      hide FileOk;
      hide Linked;
      hide Covers;
      hide Behind;
      hide DiskBytes;
      hide FileBytes;
      hide ChunkWritten;
      hide Touched;
      hide RecordedSize;
      hide VnmContainer.Fits;
      hide Takes;
      ghost var before, nodes := View(), c.nodes;
      ghost var g := before.(dirty := left);
      FileOkSlots(g, nodes, chainSlots);
      TouchedRefl(g, nodes, chainSlots);
      TakesWhen(before, ci);
      if ci in cache && ci < |slotMap| {
        CachedChunkFits(g, nodes, chainSlots, ci);
        ghost var slot;
        SlotsOkAnyDirty(g, before, nodes);
        r, slot := StoreChunk(c, ci);
        if r.Err? { return; }
        Redirty(before, View(), nodes, c.nodes, ci, slot, left);
        LinkedFile(g, nodes, chainSlots);
        ChunkStep(g, View().(dirty := left - {ci}), nodes, c.nodes, chainSlots, ci, slot);
      } else {
        ForgetUncached(g, nodes, chainSlots, ci);
        TouchedAnyDirty(g, nodes, g, g.(dirty := left - {ci}), nodes, chainSlots, chainSlots);
      }
      r := Ok(());
    }

    /** Step 2: free the slots of chunks past the end and cut the slot map. */
    method DrainExcessSlots(c: VnmContainer, ghost d: set<nat>)
      requires c.Valid() && FileOk(View().(dirty := d), c.nodes, chainSlots)
      modifies this`slotMap, this`metaDirty, c, c.store
      ensures c.Valid() && FileKept(old(At(c)).Marked(d), At(c).Marked(d)) && |slotMap| == Max(ChunkCount(totalSize), 1)
      ensures Drained(old(View().(dirty := d)), View().(dirty := d), old(c.nodes), c.nodes, |slotMap|)
      ensures c.lost == old(c.lost) && c.store.free == FreedAll(old(c.store.free), ExcessIds(old(View())))
      ensures old(c.history) <= c.history
      ensures StepSeen(old(At(c)).Marked(d), At(c).Marked(d), c.history, |old(c.history)|)
    {
      hide VnmContainer.Valid;
      hide Allocated;
      hide FileOk;
      hide Behind;
      hide DiskBytes;
      hide FileBytes;
      hide Touched;
      hide RecordedSize;
      hide Shows;
      hide TailSlots;
      var n := if ChunkCount(totalSize) < 1 then 1 else ChunkCount(totalSize);
      ghost var g := View().(dirty := d);
      FileParts(g, c.nodes, chainSlots);
      if |slotMap| > n {
        AnyDirtyTail(g, View(), n);
        FreeFrom(c, n, d);
        slotMap := slotMap[..n];
        metaDirty := true;
        if old(Appending(View().(dirty := d), c.nodes)) {
          ChunkCountMonotone(RecordedSize(c.nodes, headSlot), totalSize);
          CutBehind(g, View().(dirty := d), c.nodes, n);
        }
      } else {
        ShowsNothing(c.history, headSlot, DiskBytes(c.nodes, headSlot, []));
        NothingToDrain(g, c.nodes, n);
      }
      DrainKeeps(g, View().(dirty := d), old(c.nodes), c.nodes, chainSlots, n);
    }

    /** Free the slots of all entries from n on. */
    method FreeFrom(c: VnmContainer, n: nat, ghost d: set<nat>)
      requires c.Valid() && SlotsOk(View().(dirty := d), c.nodes) && KeysBelow(View().(dirty := d), n)
      requires n == Max(ChunkCount(totalSize), 1) && n <= |slotMap|
      modifies c, c.store
      ensures c.Valid() && c.nodes == old(c.nodes) - TailSlots(View(), n)
      ensures c.lost == old(c.lost) && c.store.free == FreedAll(old(c.store.free), Allocated(slotMap[n..]))
      ensures old(c.history) <= c.history
      ensures Unseen(View().(dirty := d), old(c.nodes), c.nodes, c.history, |old(c.history)|)
    {
      hide VnmContainer.Valid;
      hide Unseen;
      hide SlotsOk;
      hide KeysBelow;
      hide SlotsBetween;
      hide Allocated;
      hide FreedAll;
      ghost var g := View().(dirty := d);
      var i := n;
      SlotsBetweenNone(g, n);
      NothingFreed(slotMap, n, c.store.free);
      UnseenStart(g, c.nodes, c.history);
      while i < |slotMap|
        invariant n <= i <= |slotMap|
        invariant c.Valid() && c.nodes == old(c.nodes) - SlotsBetween(g, n, i)
        invariant c.lost == old(c.lost)
        invariant c.store.free == FreedAll(old(c.store.free), Allocated(slotMap[n..i]))
        invariant old(c.history) <= c.history
        invariant Unseen(g, old(c.nodes), c.nodes, c.history, |old(c.history)|)
      {
        SlotsBetweenNext(g, old(c.nodes), n, i);
        OneMoreFreed(slotMap, n, i, old(c.store.free));
        if slotMap[i].Some? {
          ghost var nodes, history := c.nodes, c.history;
          c.FreeNode(slotMap[i].value);
          FreeTail(g, old(c.nodes), nodes, c.nodes, history, |old(c.history)|, i, n);
        }
        i := i + 1;
      }
      assert slotMap[n..i] == slotMap[n..];
      AnyDirtyTail(g, View(), n);
    }

    /** Step 3: rebuild the overflow chain and rewrite the head. */
    method WriteHead(c: VnmContainer, ghost d: set<nat>) returns (r: Result<(), Errno>)
      requires c.Valid() && FileOk(View().(dirty := d), c.nodes, chainSlots) && d == dirty * {0}
      requires |slotMap| == Max(ChunkCount(totalSize), 1) && (metaDirty || 0 in dirty)
      modifies this`indexChain, this`chainSlots, c, c.store
      ensures c.Valid()
      ensures r.Ok? ==> FileKept(old(At(c)).Marked(d), At(c).Cleaned()) && c.lost == old(c.lost)
      ensures r.Ok? && |Allocated(slotMap[1..])| <= MAX_DIRECT_SLOTS ==>
                var head := NewHead(old(View()), old(c.nodes), Allocated(slotMap[1..]), None);
                c.nodes == (old(c.nodes) - SlotSet(old(chainSlots)))[headSlot := head]
      ensures r.Ok? <==>
                && ChainFits(c, Overflow(Allocated(slotMap[1..])), FreedAll(old(c.store.free), old(chainSlots)), None)
                && c.Fits(NewHead(View(), c.nodes, Allocated(slotMap[1..]), indexChain))
      ensures r.Err? ==> r.error == EIO && FlushFails(old(At(c)).Marked(d), At(c).Marked(d))
      ensures ChainTook(FreedAll(old(c.store.free), old(chainSlots)), old(c.lost), |Overflow(Allocated(slotMap[1..]))|,
                        old(chainSlots), c.store.free, c.lost, chainSlots, r.Ok?)
      ensures old(c.history) <= c.history
      ensures FlushSeen(old(At(c)).Marked(d), if r.Ok? then At(c).Cleaned() else At(c).Marked(d), c.history,
                        |old(c.history)|, r.Ok?)
    {
      hide VnmContainer.Valid;
      hide VnmContainer.Fits;
      hide FileOk;
      hide DiskBytes;
      hide FileBytes;
      hide Allocated;
      hide HeadChunk;
      hide Rebuilt;
      hide NewHead;
      hide Overflow;
      hide FreedAll;
      hide SlotSet;
      hide Shows;
      hide FlushSeen;
      hide FileKept;
      hide FlushFails;
      hide Appending;
      hide ChainFits;
      hide ChainTook;
      ghost var m0, history0 := At(c).Marked(d), c.history;
      HeadInUse(m0.h, m0.nodes, m0.chain);
      var chunk0 := HeadChunkData(c, d);
      var allCont := CollectIds();
      ghost var chain: seq<nat>;
      var newChain;
      newChain, chain := RebuildChain(c, allCont, d);
      ghost var m1, history := At(c).Marked(d), c.history;
      if newChain.Err? {
        ChainIsLost(m0, m1, history, |history0|);
        return Err(EIO);
      }
      r := PutHead(c, allCont, chunk0, newChain.value, m0.h, m0.nodes, m0.chain, chain);
      ChainTookAnyway(FreedAll(old(c.store.free), m0.chain), old(c.lost), |Overflow(allCont)|, m0.chain, c.store.free,
                      c.lost, chain, r.Ok?);
      HeadAnyDirty(m0.h, old(View()), m0.nodes, allCont, None);
      HeadSeen(m0, if r.Ok? then At(c).Cleaned() else At(c).Marked(d), history, |history0|, c.history, r.Ok?);
    }

    /** Point at the new chain and rewrite the head; `g` and `nodes0` are the file before its old chain was freed. */
    method PutHead(c: VnmContainer, ids: seq<nat>, chunk0: seq<byte>, first: Option<nat>, ghost g: Handle,
                   ghost nodes0: Nodes, ghost chain0: seq<nat>, ghost chain: seq<nat>)
      returns (r: Result<(), Errno>)
      requires c.Valid() && FileOk(g, nodes0, chain0) && g.dirty <= {0} && (g.metaDirty || 0 in g.dirty)
      requires g == View().(dirty := g.dirty) && |slotMap| == Max(ChunkCount(totalSize), 1)
      requires ids == Allocated(slotMap[1..]) && chunk0 == HeadChunk(g, nodes0)
      requires Rebuilt(nodes0, c.nodes, chain0, first, chain, ids)
      modifies this`indexChain, this`chainSlots, c, c.store
      ensures c.Valid() && c.lost == old(c.lost) && c.store.free == old(c.store.free)
      ensures indexChain == first && chainSlots == chain
      ensures r.Ok? <==> c.Fits(NewHead(View(), c.nodes, ids, first))
      ensures var h := if r.Ok? then View().(dirty := {}, metaDirty := false) else View().(dirty := g.dirty);
              && FileOk(h, c.nodes, chain) && FileBytes(h, c.nodes) == FileBytes(g, nodes0)
              && Touched(g, chain0, nodes0, h, chain, c.nodes)
      ensures r.Ok? ==>
                && c.nodes == old(c.nodes)[headSlot := NewHead(g, nodes0, ids, first)]
                && c.history == old(c.history) + [c.nodes]
      ensures r.Err? ==>
                && r.error == EIO && c.nodes == old(c.nodes) && c.history == old(c.history)
                && Dense(View().(dirty := g.dirty), c.nodes)
    {
      hide VnmContainer.Valid;
      hide FileOk;
      hide FileBytes;
      hide Touched;
      hide Allocated;
      hide HeadChunk;
      hide Rebuilt;
      hide Dense;
      hide VnmContainer.Free;
      hide NewHead;
      hide Direct;
      hide VnmContainer.Fits;
      hide SlotSet;
      ghost var mid := c.nodes;
      HeadInUse(g, nodes0, chain0);
      HeadStays(g, nodes0, mid, chain0, first, chain, ids);
      var dataSlots := if |ids| <= MAX_DIRECT_SLOTS then ids else ids[..MAX_DIRECT_SLOTS];
      indexChain := first;
      chainSlots := chain;
      var node := File(totalSize, dataSlots, first, chunk0);
      HeadAnyDirty(g, View(), nodes0, ids, first);
      NodeIsHead(View(), nodes0, ids, first);
      var u := c.UpdateNode(headSlot, node);
      SameHead(View(), nodes0, c.nodes, ids, first);
      if u.Err? {
        HeadNotWritten(g, View().(dirty := g.dirty), nodes0, mid, chain0, chain, ids);
        FileParts(View().(dirty := g.dirty), c.nodes, chain);
        return Err(EIO);
      }
      HeadDone(g, View().(dirty := {}, metaDirty := false), nodes0, mid, c.nodes, chain0, chain);
      r := Ok(());
    }

    /** Chunk 0 for the new head: from the cache, clamped to the file size, else what the head holds. */
    method HeadChunkData(c: VnmContainer, ghost d: set<nat>) returns (chunk0: seq<byte>)
      requires c.Valid() && SlotsOk(View().(dirty := d), c.nodes)
      ensures chunk0 == HeadChunk(View().(dirty := d), c.nodes)
    {
      hide VnmContainer.Valid;
      if 0 in cache {
        chunk0 := cache[0];
        var sz := ChunkActualSize(0, totalSize);
        if sz.Some? { chunk0 := Truncate(chunk0, sz.value); }
      } else {
        var node := c.ReadNode(headSlot);
        chunk0 := node.value.data;
      }
    }

    /** Free the old overflow chain and write the ids that do not fit the head into a new one. */
    method RebuildChain(c: VnmContainer, ids: seq<nat>, ghost d: set<nat>)
      returns (r: Result<Option<nat>, Errno>, ghost chain: seq<nat>)
      requires c.Valid() && FileOk(View().(dirty := d), c.nodes, chainSlots)
      modifies c, c.store
      ensures c.Valid()
      ensures r.Ok? ==>
                && Rebuilt(old(c.nodes), c.nodes, chainSlots, r.value, chain, ids) && c.lost == old(c.lost)
      ensures |ids| <= MAX_DIRECT_SLOTS ==>
                r == Ok(None) && chain == [] && c.nodes == old(c.nodes) - SlotSet(chainSlots)
      ensures r.Ok? <==> ChainFits(c, Overflow(ids), FreedAll(old(c.store.free), chainSlots), None)
      ensures ChainTook(FreedAll(old(c.store.free), chainSlots), old(c.lost), |Overflow(ids)|, chainSlots,
                        c.store.free, c.lost, if r.Ok? then chain else chainSlots, r.Ok?)
      ensures forall s :: s in old(c.nodes) && s !in SlotSet(chainSlots) ==>
                s in c.nodes && c.nodes[s] == old(c.nodes)[s]
      ensures r.Err? ==>
                && r.error == EIO
                && (forall s :: s in chainSlots && s in c.nodes ==> c.nodes[s].FileIndex?)
                && (c.lost == old(c.lost) ==> c.store.free == [])
      ensures old(c.history) <= c.history
      ensures old(Behind(View().(dirty := d), c.nodes)) ==>
                Shows(c.history, |old(c.history)|, headSlot, old(DiskBytes(c.nodes, headSlot, [])))
    {
      hide VnmContainer.Valid;
      hide FileOk;
      hide Behind;
      hide DiskBytes;
      hide IsChain;
      hide ChainIds;
      hide ChainFits;
      hide FreedAll;
      hide VnmContainer.Free;
      hide VnmContainer.Fits;
      hide TakenOff;
      hide ChainTook;
      ghost var g := View().(dirty := d);
      FileChain(g, c.nodes, chainSlots);
      FreeIndexChain(c, indexChain, chainSlots);
      ghost var cleared := c.nodes;
      chain := [];
      ChainNil(cleared);
      ghost var list := c.store.free;
      NoBlocks(c, list, None);
      NoChain(list, c.lost, chainSlots);
      r := Ok(None);
      if |ids| > MAX_DIRECT_SLOTS {
        r, chain := WriteIndexChain(c, ids[MAX_DIRECT_SLOTS..]);
        ChainTaken(list, old(c.lost), |Overflow(ids)|, chainSlots, c.store.free, c.lost, chain, r.Ok?);
      }
      if old(Behind(View().(dirty := d), c.nodes)) {
        assert cleared == old(c.nodes) && |c.history| >= |old(c.history)|;
        forall k | |old(c.history)| <= k < |c.history|
          ensures DiskBytes(c.history[k], headSlot, []) == old(DiskBytes(c.nodes, headSlot, []))
        {
          ExtendsInvisible(g, cleared, c.history[k]);
        }
      }
    }

    /** The allocated continuation ids, in chunk order. */
    method CollectIds() returns (ids: seq<nat>)
      requires |slotMap| >= 1
      ensures ids == Allocated(slotMap[1..])
    {
      ids := [];
      for i := 1 to |slotMap|
        invariant ids == Allocated(slotMap[1..i])
      {
        assert slotMap[1..i + 1] == slotMap[1..i] + [slotMap[i]];
        AllocatedAppend(slotMap[1..i], slotMap[i]);
        if slotMap[i].Some? { ids := ids + [slotMap[i].value]; }
      }
      assert slotMap[1..|slotMap|] == slotMap[1..];
    }
  }

  /** A head that could not be written leaves a file whose handle is ahead of its head. */
  lemma HeadNotWritten(h: Handle, h': Handle, nodes: Nodes, mid: Nodes, chain: seq<nat>, chain': seq<nat>,
                       ids: seq<nat>)
    requires FileOk(h, nodes, chain) && Rebuilt(nodes, mid, chain, h'.chain, chain', ids)
    requires h' == h.(chain := h'.chain) && (h.metaDirty || 0 in h.dirty)
    ensures FileOk(h', mid, chain') && FileBytes(h', mid) == FileBytes(h, nodes)
    ensures Touched(h, chain, nodes, h', chain', mid)
  {
    HeadKeeps(h, nodes, mid, chain);
    AnyChain(h, h', mid);
    FootprintInUse(h, nodes, chain);
    OutsideChain(h, nodes, chain);
    assert DataSlots(h') == DataSlots(h);
  }

  /** The chain does not matter for what a handle shows. */
  lemma AnyChain(h: Handle, h': Handle, nodes: Nodes)
    requires Dense(h, nodes) && h' == h.(chain := h'.chain)
    ensures Dense(h', nodes) && FileBytes(h', nodes) == FileBytes(h, nodes)
  {
    forall i: nat ensures Stored(h', nodes, i) == Stored(h, nodes, i) && Chunk(h', nodes, i) == Chunk(h, nodes, i) {
    }
    SameContents(h, nodes, h', nodes, h.total);
  }

  lemma CleanAppends(h: Handle, nodes: Nodes, chain: seq<nat>)
    requires FileOk(h, nodes, chain) && h.dirty == {} && !h.metaDirty
    ensures h.chain == None ==> Appending(h, nodes) && DiskBytes(nodes, h.head, []) == FileBytes(h, nodes)
  {
    if h.chain == None { CleanIsBehind(h, nodes, chain); }
  }

  lemma NothingFlushed(h: Handle, chain: seq<nat>, nodes: Nodes)
    requires FlushedNodes(h, nodes) == nodes
    ensures FlushedAs(h, chain, nodes, nodes)
  {
  }

  lemma FlushedIs(h0: Handle, chain0: seq<nat>, nodes0: Nodes, h1: Handle, nodes1: Nodes, nodes': Nodes)
    requires h0.dirty != {} || h0.metaDirty
    requires DirtyCached(h0) == {} ==> nodes1 == nodes0 && h1 == h0
    requires chain0 == [] && |KeptIds(h1)| <= MAX_DIRECT_SLOTS ==> nodes' == FinishedNodes(h1, nodes1)
    ensures FlushedAs(h0, chain0, nodes0, nodes')
  {
    hide KeptIds;
    hide FinishedNodes;
    hide DirtyCached;
  }

  /** What the drain leaves for step 3. */
  lemma DrainedParts(h: Handle, h2: Handle, nodes: Nodes, nodes2: Nodes, d: set<nat>)
    requires Drained(h.(dirty := d), h2.(dirty := d), nodes, nodes2, |h2.slotMap|) && h2.dirty == h.dirty
    ensures Rewrites(h) <==> h2.metaDirty || 0 in h2.dirty
    ensures |h2.slotMap| >= 1 && KeptIds(h) == Allocated(h2.slotMap[1..])
    ensures h2.chain == h.chain && h2.total == h.total && h2.cache == h.cache && h2.head == h.head
  {
    hide Allocated;
    KeptIdsAre(h, h2, nodes, nodes2, d);
  }

  /** Steps 2 and 3 with a head rewritten, or not for lack of room. */
  lemma RestIs(m: Instant, h2: Handle, nodes2: Nodes, at: Instant, d: set<nat>, ok: bool)
    requires Drained(m.h.(dirty := d), h2.(dirty := d), m.nodes, nodes2, |h2.slotMap|) && h2.dirty == m.h.dirty
    requires FileOk(h2.(dirty := d), nodes2, m.chain) && d == m.h.dirty * {0} && Rewrites(m.h)
    requires at.h == h2.(chain := at.h.chain)
    requires ChainTook(FreedAll(FreedAll(m.free, ExcessIds(m.h)), m.chain), m.lost,
                       |Overflow(Allocated(h2.slotMap[1..]))|,
                       m.chain, at.free, at.lost, at.chain, ok)
    ensures RestLeaves(m, if ok then at.(h := at.h.(dirty := {}, metaDirty := false)) else at, ok)
  {
    hide ChainTook;
    hide FileOk;
    hide Allocated;
    hide ExcessIds;
    var g2 := h2.(dirty := d);
    OverflowIs(g2, nodes2, m.chain);
    assert Kept(g2).slotMap == h2.slotMap;
  }

  lemma RestUntouched(m: Instant, h2: Handle, nodes2: Nodes, d: set<nat>)
    requires Drained(m.h.(dirty := d), h2.(dirty := d), m.nodes, nodes2, |h2.slotMap|) && h2.dirty == m.h.dirty
    requires SlotsOk(m.h.(dirty := d), m.nodes) && !Rewrites(m.h) && d == m.h.dirty * {0}
    ensures RestLeaves(m, m.(h := h2.(dirty := {}, metaDirty := false)), true) && nodes2 == m.nodes
    ensures FreedAll(m.free, ExcessIds(m.h)) == m.free
  {
    assert TailSlots(m.h, |h2.slotMap|) == {};
    assert h2.slotMap == m.h.slotMap;
  }

  lemma WhatHeadToWrite(h: Handle, nodes: Nodes)
    requires |h.slotMap| == Max(ChunkCount(h.total), 1)
    ensures HeadToWrite(h, nodes) == NewHead(h, nodes, Allocated(h.slotMap[1..]), h.chain)
  {
    hide Allocated;
    hide NewHead;
  }

  /** What decides the rest of a flush that has a head to rewrite. */
  lemma RestFits(c: VnmContainer, m0: Instant, m2: Instant, m: Instant, d: set<nat>, ok: bool)
    requires Drained(m0.h.(dirty := d), m2.h.(dirty := d), m0.nodes, m2.nodes, |m2.h.slotMap|)
    requires m2.h.dirty == m0.h.dirty && (m2.h.metaDirty || 0 in m2.h.dirty)
    requires m2.free == FreedAll(m0.free, ExcessIds(m0.h)) && m.h == m2.h.(chain := m.h.chain)
    requires var ids := Allocated(m2.h.slotMap[1..]);
             ok <==> && ChainFits(c, Overflow(ids), FreedAll(m2.free, m0.chain), None)
                     && c.Fits(NewHead(m.h, m.nodes, ids, m.h.chain))
    ensures ok <==> FinishFits(c, m0.h, m0.chain, m0.free, m.h, m.nodes)
    ensures ok <==> FinishFits(c, m0.h, m0.chain, m0.free, m.Cleaned().h, m.nodes)
  {
    hide VnmContainer.Fits;
    hide ChainFits;
    hide Allocated;
    hide NewHead;
    hide Overflow;
    hide FreedAll;
    hide ExcessIds;
    DrainedParts(m0.h, m2.h, m0.nodes, m2.nodes, d);
    WhatHeadToWrite(m.h, m.nodes);
    SameHeadToWrite(m.h, m.Cleaned().h, m.nodes);
  }

  lemma NoRewrite(c: VnmContainer, m: Instant, h: Handle, nodes: Nodes)
    ensures !Rewrites(m.h) ==> FinishFits(c, m.h, m.chain, m.free, h.(dirty := {}, metaDirty := false), nodes)
  {
  }

  lemma SameHeadToWrite(h: Handle, h': Handle, nodes: Nodes)
    requires h' == h.(dirty := h'.dirty, metaDirty := h'.metaDirty)
    ensures HeadToWrite(h', nodes) == HeadToWrite(h, nodes)
  {
    hide Allocated;
    hide NewHead;
    assert Kept(h').slotMap == Kept(h).slotMap;
    HeadAnyDirty(h, h', nodes, KeptIds(h), h.chain);
  }

  lemma NodeIsHead(h: Handle, nodes: Nodes, ids: seq<nat>, chain: Option<nat>)
    ensures NewHead(h, nodes, ids, chain) == File(h.total, Direct(ids), chain, HeadChunk(h, nodes))
    ensures Direct(ids) == if |ids| <= MAX_DIRECT_SLOTS then ids else ids[..MAX_DIRECT_SLOTS]
  {
  }

  /** The head to write is the same whether it has been written or not. */
  lemma SameHead(h: Handle, nodes: Nodes, nodes': Nodes, ids: seq<nat>, chain: Option<nat>)
    requires h.head in nodes && h.head in nodes' && nodes[h.head].File?
    requires nodes'[h.head] == nodes[h.head] || nodes'[h.head] == NewHead(h, nodes, ids, chain)
    ensures NewHead(h, nodes', ids, chain) == NewHead(h, nodes, ids, chain)
  {
  }

  /** Counting more chunks as dirty again does no harm. */
  lemma MoreDirty(h0: Handle, nodes0: Nodes, g: Handle, h: Handle, nodes: Nodes, chain: seq<nat>)
    requires FileOk(h0, nodes0, chain) && FileOk(g, nodes, chain) && Touched(h0, chain, nodes0, g, chain, nodes)
    requires h == g.(dirty := h.dirty) && g.dirty <= h.dirty && g.dirty * {0} == h.dirty * {0}
    requires h.dirty == h0.dirty && h.total == h0.total
    ensures FileOk(h, nodes, chain) && FileBytes(h, nodes) == FileBytes(g, nodes)
    ensures Touched(h0, chain, nodes0, h, chain, nodes)
    ensures Behind(g, nodes) ==> Behind(h, nodes)
  {
    TouchedAnyDirty(h0, nodes0, g, h, nodes, chain, chain);
    SameChunks(g, h, nodes);
    assert 0 in g.dirty <==> 0 in h.dirty by {
      assert 0 in g.dirty * {0} <==> 0 in h.dirty * {0};
    }
  }

  /** Dirty marks do not matter for what a handle shows. */
  lemma SameChunks(g: Handle, h: Handle, nodes: Nodes)
    requires h == g.(dirty := h.dirty)
    ensures forall i: nat :: Stored(h, nodes, i) == Stored(g, nodes, i) && Chunk(h, nodes, i) == Chunk(g, nodes, i)
    ensures FileBytes(h, nodes) == FileBytes(g, nodes)
    ensures Behind(g, nodes) <==> Behind(h, nodes)
  {
    assert forall i: nat :: SlotOf(h, i) == SlotOf(g, i);
    assert forall i: nat :: Stored(h, nodes, i) == Stored(g, nodes, i);
    assert forall p: nat :: Chunk(h, nodes, p / CHUNK_SIZE) == Chunk(g, nodes, p / CHUNK_SIZE);
    assert FileBytes(h, nodes) == FileBytes(g, nodes);
  }

  lemma AppendedIs(h0: Handle, h1: Handle, h2: Handle, h3: Handle, pos: nat, d: seq<byte>, end: nat)
    requires pos / CHUNK_SIZE >= |h0.slotMap| >= 1
    requires h1 == h0.(slotMap := h0.slotMap + Unmapped(pos / CHUNK_SIZE + 1 - |h0.slotMap|), metaDirty := true)
    requires h1.slotMap[pos / CHUNK_SIZE] == None ==>
               h2 == h1.(cache := h1.cache[pos / CHUNK_SIZE := Zeros(CHUNK_SIZE)])
    requires Patched(h2, h3, pos, d) && h3.total == Max(end, h2.total) && h3.chain == h2.chain
    requires h3.metaDirty <==> h2.metaDirty || h3.total != h2.total
    ensures h3 == ChunkAppended(h0, pos, d, end)
  {
  }

  lemma SlotMapStarts(h: Handle, nodes: Nodes)
    requires SlotsOk(h, nodes)
    ensures |h.slotMap| >= 1
  {
  }

  lemma PatchedSlots(h: Handle, h': Handle, nodes: Nodes, pos: nat, d: seq<byte>)
    requires SlotsOk(h, nodes) && Patched(h, h', pos, d)
    ensures SlotsOk(h', nodes)
  {
  }

  /** Inserting a fetched chunk after an eviction loads it. */
  lemma InsertLoads(h: Handle, kept: map<nat, seq<byte>>, nodes: Nodes, ci: nat, data: seq<byte>)
    requires forall k :: k in kept ==> k in h.cache && kept[k] == h.cache[k]
    requires forall k :: k in h.cache && k !in kept ==> k !in h.dirty
    requires ci !in h.cache
    ensures |kept[ci := data]| == |kept| + 1 && kept[ci := data].Keys == kept.Keys + {ci}
    ensures data == Chunk(h, nodes, ci) ==> Loaded(h, h.(cache := kept[ci := data]), nodes, ci)
  {
    assert kept[ci := data].Keys == kept.Keys + {ci};
  }

  lemma PushKeepsSlots(h: Handle, h': Handle, nodes: Nodes)
    requires h'.head == h.head && h'.slotMap == h.slotMap + [None] && h'.dirty == h.dirty && h'.cache == h.cache
    requires h'.chain == h.chain
    ensures DataSlots(h') == DataSlots(h)
    ensures Behind(h, nodes) ==> Behind(h', nodes)
  {
    forall s | s in DataSlots(h) ensures s in DataSlots(h') {
      var i :| 0 <= i < |h.slotMap| && h.slotMap[i] == Some(s);
      assert h'.slotMap[i] == Some(s);
    }
    if Behind(h, nodes) {
      var d := DiskView(nodes, h.head, []);
      forall i: nat
        ensures Stored(h', nodes, i) == Stored(h, nodes, i) && Chunk(h', nodes, i) == Chunk(h, nodes, i)
      {
      }
      assert forall i: nat :: SlotOf(h', i) == SlotOf(h, i);
    }
  }

  lemma AllocatedIsLoadable(h: Handle, nodes: Nodes, ci: nat)
    requires SlotsOk(h, nodes) && ci < |h.slotMap| && (h.slotMap[ci].Some? || ci == 0)
    ensures Loadable(h, nodes, ci)
  {
  }

  lemma LoadedCameIn(h: Handle, h': Handle, nodes: Nodes, ci: nat)
    requires Loaded(h, h', nodes, ci) && ci !in h.cache && ci < |h.slotMap| && (h.slotMap[ci].Some? || ci == 0)
    ensures CameIn(h, h', nodes, ci) && h' == h.(cache := h'.cache)
  {
  }

  lemma ZerosCameIn(h: Handle, nodes: Nodes, ci: nat)
    requires ci !in h.cache && 0 < ci < |h.slotMap| && h.slotMap[ci].None?
    ensures CameIn(h, h.(cache := h.cache[ci := Zeros(CHUNK_SIZE)]), nodes, ci)
  {
  }

  /** A chunk with neither slot nor cache entry has no needed bytes. */
  lemma UnallocatedIsNew(h: Handle, nodes: Nodes, ci: nat, size: nat)
    requires Covers(h, nodes, size) && 1 <= ci < |h.slotMap| && h.slotMap[ci] == None && ci !in h.cache
    ensures Need(ci, size) == 0
  {
    assert Need(ci, size) <= |Chunk(h, nodes, ci)|;
  }

  lemma NewChunkBehind(h: Handle, h': Handle, nodes: Nodes, ci: nat)
    requires Behind(h, nodes) && 1 <= ci < |h.slotMap| && h.slotMap[ci] == None && ci !in h.cache
    requires h' == h.(cache := h.cache[ci := Zeros(CHUNK_SIZE)])
    ensures Behind(h', nodes)
  {
    var k := nodes[h.head].totalSize;
    forall i: nat
      ensures Stored(h', nodes, i) == Stored(h, nodes, i)
      ensures Need(i, k) <= |Chunk(h', nodes, i)| && Need(i, k) <= |Stored(h, nodes, i)|
      ensures Chunk(h', nodes, i)[..Need(i, k)] == Stored(h', nodes, i)[..Need(i, k)]
    {
      assert Need(i, k) <= |Chunk(h, nodes, i)| && Need(i, k) <= |Stored(h, nodes, i)|;
      assert Chunk(h, nodes, i)[..Need(i, k)] == Stored(h, nodes, i)[..Need(i, k)];
    }
  }

  lemma SliceMore(b: seq<byte>, offset: nat, pos: nat, take: nat)
    requires offset <= pos && pos + take <= |b|
    ensures b[offset..pos] + b[pos..pos + take] == b[offset..pos + take]
  {
  }

  /** Splicing a longer prefix of the data, piece by piece. */
  lemma SpliceMore(b: seq<byte>, offset: nat, data: seq<byte>, done: nat, take: nat)
    requires offset <= |b| && done + take <= |data|
    ensures Splice(Splice(b, offset, data[..done]), offset + done, data[done..done + take]) ==
              Splice(b, offset, data[..done + take])
  {
    SpliceTwice(b, offset, data[..done], data[done..done + take]);
    assert data[..done] + data[done..done + take] == data[..done + take];
  }

  lemma KeysStep(h: Handle, h': Handle, nodes: Nodes, total: nat, pos: nat, d: seq<byte>, end: nat)
    requires KeysBelow(h, Max(1, ChunkCount(Max(total, pos)))) && d != []
    requires ChunkPatched(h, h', nodes, pos, d, end)
    ensures KeysBelow(h', Max(1, ChunkCount(Max(total, pos + |d|))))
  {
  }

  lemma AtBoundary(h0: Handle, nodes: Nodes, offset: nat, data: seq<byte>, pos: nat, h: Handle)
    requires WrittenUpTo(h0, nodes, offset, data, pos, h) && pos < offset + |data|
    ensures offset < pos ==> pos % CHUNK_SIZE == 0
    ensures h.total == if pos == offset then h0.total else Max(offset + |data|, h0.total)
  {
  }

  /** How far the bytes of a write that has come to `pos` are accounted for; past the end no further than before. */
  function Reached(total: nat, offset: nat, pos: nat): nat {
    if offset <= total then Max(total, pos) else total
  }

  function SplicedSoFar(b: seq<byte>, offset: nat, d: seq<byte>): seq<byte> {
    if offset <= |b| then Splice(b, offset, d) else b
  }

  lemma KeysHigher(h: Handle, total: nat, offset: nat)
    requires KeysBelow(h, Max(1, ChunkCount(total)))
    ensures KeysBelow(h, Max(1, ChunkCount(Max(total, offset))))
  {
    ChunkCountMonotone(total, Max(total, offset));
  }

  lemma NothingShown(b: seq<byte>, offset: nat)
    ensures SplicedSoFar(b, offset, []) == b
  {
  }

  lemma SplicedMore(b: seq<byte>, offset: nat, data: seq<byte>, done: nat, take: nat)
    requires done + take <= |data|
    ensures offset <= |b| ==>
              Splice(SplicedSoFar(b, offset, data[..done]), offset + done, data[done..done + take]) ==
                SplicedSoFar(b, offset, data[..done + take])
    ensures offset > |b| ==> SplicedSoFar(b, offset, data[..done]) == SplicedSoFar(b, offset, data[..done + take])
  {
    if offset <= |b| { SpliceMore(b, offset, data, done, take); }
  }

  /** The loop has made a filled handle of it. */
  lemma IsFilled(h0: Handle, h: Handle, nodes: Nodes, chain: seq<nat>, offset: nat, data: seq<byte>)
    requires FileOk(h0, nodes, chain) && SlotsOk(h, nodes)
    requires var size := Reached(h0.total, offset, offset + |data|);
             && Covers(h, nodes, size)
             && Contents(h, nodes, size) == SplicedSoFar(FileBytes(h0, nodes), offset, data)
    requires KeysBelow(h, Max(1, ChunkCount(Max(h0.total, offset + |data|))))
    requires BooksOf(h0, h, offset, |data|, offset + |data|) && CacheOf(h0, nodes, offset, data, |data|, h)
    requires DataSlots(h) == DataSlots(h0) && h0.dirty <= h.dirty && (data == [] ==> h == h0)
    requires !h.metaDirty ==> !h0.metaDirty && h.total == h0.total && h.slotMap == h0.slotMap
    ensures Filled(h0, nodes, chain, offset, data, h) && Touched(h0, chain, nodes, h, chain, nodes)
  {
    hide SlotsOk;
    hide Covers;
    hide CacheOf;
    hide Contents;
    hide FileBytes;
    hide KeysBelow;
    hide DataSlots;
    hide FileOk;
    hide Linked;
    hide Splice;
    BooksTotal(h0, h, offset, |data|);
    if offset <= h0.total {
      FileAgain(h0, h, nodes, chain);
      LinkedFile(h, nodes, chain);
    } else if data == [] {
      LinkedFile(h, nodes, chain);
      LinkedParts(h, nodes, chain);
    } else {
      SparseIsLinked(h0, h, nodes, chain, offset, data);
      SparseShows(h0, nodes, chain, offset, data, h);
    }
  }

  lemma FilledParts(h: Handle, nodes: Nodes, chain: seq<nat>, offset: nat, data: seq<byte>, filled: Handle)
    requires Filled(h, nodes, chain, offset, data, filled)
    ensures Linked(filled, nodes, chain) && filled.total >= h.total && filled.head == h.head && filled.chain == h.chain
    ensures offset <= h.total ==>
              FileOk(filled, nodes, chain) && FileBytes(filled, nodes) == Splice(FileBytes(h, nodes), offset, data)
  {
    hide Linked;
    hide FileOk;
    hide CacheOf;
    hide SparselyFilled;
    hide Splice;
    hide FileBytes;
    hide LongerMap;
  }

  lemma BooksTotal(h0: Handle, h: Handle, offset: nat, n: nat)
    requires BooksOf(h0, h, offset, n, offset + n)
    ensures h.head == h0.head && h.chain == h0.chain
    ensures h.total == if n == 0 then h0.total else Max(offset + n, h0.total)
  {
  }

  /** A write past the end leaves a file that may lack bytes, but no more. */
  lemma SparseIsLinked(h0: Handle, h: Handle, nodes: Nodes, chain: seq<nat>, offset: nat, data: seq<byte>)
    requires FileOk(h0, nodes, chain) && SlotsOk(h, nodes) && Covers(h, nodes, h0.total)
    requires h0.total < offset && data != [] && KeysBelow(h, Max(1, ChunkCount(offset + |data|)))
    requires BooksOf(h0, h, offset, |data|, offset + |data|) && DataSlots(h) == DataSlots(h0)
    ensures Linked(h, nodes, chain) && Touched(h0, chain, nodes, h, chain, nodes)
  {
    FootprintInUse(h0, nodes, chain);
    forall i | i in h.cache ensures |h.cache[i]| <= CHUNK_SIZE {
      assert h.cache[i] == Chunk(h, nodes, i);
    }
  }

  lemma FileParts(h: Handle, nodes: Nodes, chain: seq<nat>)
    requires FileOk(h, nodes, chain)
    ensures SlotsOk(h, nodes) && Covers(h, nodes, h.total) && KeysBelow(h, Max(1, ChunkCount(h.total)))
    ensures FileBytes(h, nodes) == Contents(h, nodes, h.total)
    ensures Splice(Contents(h, nodes, h.total), h.total, []) == Contents(h, nodes, h.total)
    ensures forall o: nat :: o <= h.total ==> Splice(Contents(h, nodes, h.total), o, []) == Contents(h, nodes, h.total)
  {
  }

  /** `list` holds the least elements of `all` in ascending order and `rest` the others. */
  ghost predicate Lowest(list: seq<nat>, rest: set<nat>, all: set<nat>) {
    && Ascending(list)
    && all == SlotSet(list) + rest && SlotSet(list) !! rest
    && |list| == |SlotSet(list)|
    && forall x, y :: x in SlotSet(list) && y in rest ==> x < y
  }

  lemma LowestNext(list: seq<nat>, rest: set<nat>, all: set<nat>, m: nat)
    requires Lowest(list, rest, all) && m in rest && forall x :: x in rest ==> m <= x
    ensures Lowest(list + [m], rest - {m}, all)
  {
    hide Ascending;
    hide SlotSet;
    SlotSetAppend(list, m);
    AscendingAppend(list, m);
    OneMore(SlotSet(list), rest, all, m);
  }

  lemma OneMore(low: set<nat>, rest: set<nat>, all: set<nat>, m: nat)
    requires all == low + rest && low !! rest && m in rest && forall x :: x in rest ==> m <= x
    requires forall x, y :: x in low && y in rest ==> x < y
    ensures all == (low + {m}) + (rest - {m}) && (low + {m}) !! (rest - {m}) && |low + {m}| == |low| + 1
    ensures forall x, y :: x in low + {m} && y in rest - {m} ==> x < y
  {
    forall y | y in rest - {m} ensures m < y {
      assert m <= y;
    }
  }

  ghost predicate Ascending(list: seq<nat>) {
    forall i, j :: 0 <= i < j < |list| ==> list[i] < list[j]
  }

  lemma AscendingAppend(list: seq<nat>, m: nat)
    requires Ascending(list) && forall x :: x in SlotSet(list) ==> x < m
    ensures Ascending(list + [m])
  {
    assert forall i :: 0 <= i < |list| ==> list[i] in SlotSet(list);
  }

  /** The n least dirty continuation chunks, ascending (all of them if there are fewer). */
  method LowestContinuations(dirty: set<nat>, n: nat) returns (list: seq<nat>)
    ensures Lowest(list, Continuations(dirty) - SlotSet(list), Continuations(dirty))
    ensures |SlotSet(list)| == Min(n, |Continuations(dirty)|)
  {
    hide Lowest;
    list := [];
    var rest := Continuations(dirty);
    LowestNone(rest);
    while |list| < n && rest != {}
      invariant Lowest(list, rest, Continuations(dirty))
      invariant |list| <= n
      decreases rest
    {
      hide SlotSet;
      ghost var y :| y in rest;
      LeastExists(rest, y);
      var m :| m in rest && forall x :: x in rest ==> m <= x;
      LowestNext(list, rest, Continuations(dirty), m);
      rest := rest - {m};
      list := list + [m];
    }
    LowestCount(list, rest, Continuations(dirty));
  }

  /** `s` holds the n least elements of `all`, or all of them if there are fewer. */
  ghost predicate Least(s: set<nat>, all: set<nat>, n: nat) {
    && s <= all && |s| == Min(n, |all|)
    && forall x, y :: x in s && y in all - s ==> x < y
  }

  lemma LowestIsLeast(list: seq<nat>, all: set<nat>, n: nat)
    requires Lowest(list, all - SlotSet(list), all) && |SlotSet(list)| == Min(n, |all|)
    ensures Least(SlotSet(list), all, n)
  {
  }

  /** The k-th chunk is the first of those left, and is not among the others. */
  lemma LowestNth(list: seq<nat>, all: set<nat>, k: nat)
    requires Lowest(list, all - SlotSet(list), all) && k < |list|
    ensures list[k] in SlotSet(list[k..]) && SlotSet(list[k + 1..]) == SlotSet(list[k..]) - {list[k]}
  {
    assert list[k..] == [list[k]] + list[k + 1..];
    assert forall j :: k < j < |list| ==> list[j] == list[k + 1..][j - k - 1];
  }

  /** The first k chunks of the list, as far as they are in memory. */
  ghost function InMemory(h: Handle, list: seq<nat>, k: nat): set<nat>
    requires k <= |list|
  {
    SlotSet(list[..k]) * h.cache.Keys
  }

  lemma ThroughStarts(h: Handle, nodes: Nodes, list: seq<nat>, free: seq<nat>, lost: set<nat>)
    ensures StoredThrough(h, nodes, h, nodes, InMemory(h, list, 0)) && TakenOff(free, lost, free, lost, true)
  {
    assert InMemory(h, list, 0) == {};
    NothingGone(h, nodes);
  }

  /** The next chunk of an ascending list. */
  lemma ThroughMore(h0: Handle, nodes0: Nodes, h: Handle, nodes: Nodes, h': Handle, nodes': Nodes, chain: seq<nat>,
                    list: seq<nat>, k: nat)
    requires k < |list| && Ascending(list) && Linked(h, nodes, chain)
    requires StoredThrough(h0, nodes0, h, nodes, InMemory(h0, list, k))
    requires ChunkGone(h, nodes, h', nodes', list[k]) && list[k] in h.dirty && list[k] >= 1
    ensures StoredThrough(h0, nodes0, h', nodes', InMemory(h0, list, k + 1))
  {
    hide StoredThrough;
    hide ChunkGone;
    hide Linked;
    LinkedParts(h, nodes, chain);
    OneMoreGone(h0, nodes0, h, nodes, h', nodes', InMemory(h0, list, k), list[k]);
    assert list[..k + 1] == list[..k] + [list[k]];
    SlotSetAppend(list[..k], list[k]);
    assert InMemory(h0, list, k + 1) == InMemory(h0, list, k) + (if list[k] in h0.cache then {list[k]} else {});
  }

  /** The first part of an ascending list holds its lowest chunks. */
  lemma ThroughPart(h0: Handle, nodes0: Nodes, h: Handle, nodes: Nodes, list: seq<nat>, k: nat)
    requires k <= |list| && Ascending(list) && StoredThrough(h0, nodes0, h, nodes, InMemory(h0, list, k))
    ensures Through(h0, nodes0, h, nodes, SlotSet(list), false)
  {
    hide StoredThrough;
    var gone := InMemory(h0, list, k);
    forall x, y | x in gone && y in SlotSet(list) && y in h0.cache && y !in gone ensures x < y {
      assert x in list[..k] && y in list;
      var i :| 0 <= i < k && list[i] == x;
      var j :| 0 <= j < |list| && list[j] == y;
    }
  }

  lemma ThroughAll(h0: Handle, nodes0: Nodes, h: Handle, nodes: Nodes, list: seq<nat>)
    requires StoredThrough(h0, nodes0, h, nodes, InMemory(h0, list, |list|))
    ensures Through(h0, nodes0, h, nodes, SlotSet(list), true)
  {
    hide StoredThrough;
    assert list[..|list|] == list;
  }

  lemma LowestInside(list: seq<nat>, all: set<nat>)
    requires Lowest(list, all - SlotSet(list), all)
    ensures SlotSet(list) <= all && Ascending(list)
  {
  }

  lemma DirtyCachedInside(h: Handle)
    ensures DirtyCached(h) <= Continuations(h.dirty)
  {
  }

  lemma LowestNone(all: set<nat>)
    ensures Lowest([], all, all)
  {
    assert SlotSet([]) == {};
  }

  lemma LowestCount(list: seq<nat>, rest: set<nat>, all: set<nat>)
    requires Lowest(list, rest, all)
    ensures rest == all - SlotSet(list) && SlotSet(list) <= all
    ensures |SlotSet(list)| == |list| && |all| == |list| + |rest|
  {
  }

  /** A set with an element has a least one. */
  lemma {:induction false} LeastExists(s: set<nat>, y: nat)
    requires y in s
    ensures exists m :: m in s && forall x :: x in s ==> m <= x
    decreases y
  {
    if exists x :: x in s && x < y {
      var x :| x in s && x < y;
      LeastExists(s, x);
    }
  }

  lemma CountSubset(a: set<nat>, b: set<nat>)
    requires a <= b
    ensures |a| <= |b|
  {
    assert b == a + (b - a);
  }

  /** What is left after removing the listed chunks. */
  lemma CountRemaining(left: set<nat>, dirty: set<nat>, list: seq<nat>, n: nat)
    requires Lowest(list, Continuations(dirty) - SlotSet(list), Continuations(dirty))
    requires |SlotSet(list)| == Min(n, |Continuations(dirty)|)
    requires left <= Continuations(dirty) && left !! SlotSet(list)
    ensures n <= |Continuations(dirty)| ==> |left| <= |Continuations(dirty)| - n
  {
    CountSubset(left, Continuations(dirty) - SlotSet(list));
    assert |Continuations(dirty) - SlotSet(list)| == |Continuations(dirty)| - |SlotSet(list)|;
  }

  lemma DirtyCachedShrinks(h: Handle, h': Handle, list: seq<nat>, ci: nat)
    requires DirtyCached(h) !! SlotSet(list)
    requires h'.dirty <= h.dirty && h'.cache.Keys <= h.cache.Keys
    requires ci !in h'.dirty || ci !in h'.cache
    ensures DirtyCached(h') !! SlotSet(list + [ci])
  {
    assert SlotSet(list + [ci]) == SlotSet(list) + {ci} by { SlotSetAppend(list, ci); }
    assert DirtyCached(h') <= DirtyCached(h);
  }

  lemma HeadStays(h: Handle, nodes: Nodes, mid: Nodes, chain: seq<nat>, first': Option<nat>, chain': seq<nat>,
                  ids: seq<nat>)
    requires Rebuilt(nodes, mid, chain, first', chain', ids) && h.head in nodes && h.head !in SlotSet(chain)
    ensures h.head in mid && mid[h.head] == nodes[h.head]
  {
  }

  lemma HeadInUse(h: Handle, nodes: Nodes, chain: seq<nat>)
    requires FileOk(h, nodes, chain)
    ensures SlotsOk(h, nodes)
    ensures h.head in nodes && h.head !in SlotSet(chain)
    ensures Behind(h, nodes) ==> h.chain == None && nodes - SlotSet(chain) == nodes && chain == []
  {
    FileChain(h, nodes, chain);
  }

  lemma SlotsOkAnyDirty(h: Handle, h': Handle, nodes: Nodes)
    requires SlotsOk(h, nodes) && h' == h.(dirty := h'.dirty)
    ensures SlotsOk(h', nodes)
  {
  }

  lemma Redirty(h: Handle, h': Handle, nodes: Nodes, nodes': Nodes, ci: nat, slot: nat, left: set<nat>)
    requires ChunkWritten(h, h'.(dirty := h'.dirty - {ci}), nodes, nodes', ci, slot)
    ensures ChunkWritten(h.(dirty := left), h'.(dirty := left - {ci}), nodes, nodes', ci, slot)
  {
  }

  lemma FileChain(h: Handle, nodes: Nodes, chain: seq<nat>)
    requires FileOk(h, nodes, chain)
    ensures IsChain(nodes, h.chain, chain)
    ensures Walk(nodes, h.chain, chain)
    ensures Behind(h, nodes) ==> chain == []
    ensures forall s :: s in SlotSet(chain) ==> s != h.head && s !in DataSlots(h)
  {
    forall s | s in SlotSet(chain) ensures s != h.head && s !in DataSlots(h) {
      assert s in chain;
    }
  }

  lemma FinishedIs(h: Handle, h2: Handle, nodes: Nodes, nodes2: Nodes, nodes3: Nodes, d: set<nat>, chain: seq<nat>)
    requires d == h.dirty * {0} && |h.slotMap| >= 1 && SlotsOk(h.(dirty := d), nodes) && |h2.slotMap| >= 1
    requires Drained(h.(dirty := d), h2.(dirty := d), nodes, nodes2, |h2.slotMap|) && h2.dirty == h.dirty
    requires h2.metaDirty || 0 in h2.dirty ==> |Allocated(h2.slotMap[1..])| <= MAX_DIRECT_SLOTS ==>
               nodes3 == (nodes2 - SlotSet(chain))[h.head := NewHead(h2, nodes2, Allocated(h2.slotMap[1..]), None)]
    requires !(h2.metaDirty || 0 in h2.dirty) ==> nodes3 == nodes2
    ensures chain == [] && |KeptIds(h)| <= MAX_DIRECT_SLOTS ==> nodes3 == FinishedNodes(h, nodes)
  {
    hide FinishedNodes;
    hide Allocated;
    hide NewHead;
    KeptIdsAre(h, h2, nodes, nodes2, d);
    if chain == [] && |KeptIds(h)| <= MAX_DIRECT_SLOTS {
      Finished(h, h2, nodes, nodes2, nodes3, d);
    }
  }

  lemma KeptIdsAre(h: Handle, h2: Handle, nodes: Nodes, nodes2: Nodes, d: set<nat>)
    requires |h2.slotMap| >= 1 && Drained(h.(dirty := d), h2.(dirty := d), nodes, nodes2, |h2.slotMap|)
    ensures KeptIds(h) == Allocated(h2.slotMap[1..])
  {
    hide Allocated;
    assert Kept(h).slotMap == h2.slotMap;
  }

  lemma InDirtyCached(h: Handle, ci: nat)
    requires ci in h.dirty && ci in h.cache && ci >= 1
    ensures ci in DirtyCached(h)
  {
  }

  lemma ShowsNothing(history: seq<Nodes>, head: nat, b: seq<byte>)
    ensures Shows(history, |history|, head, b)
  {
  }

  /**
   A flush that still has to store the chunks in `left`: chunk 0 is not touched, what is stored so far leaves
   exactly them, and without any dirty chunk in memory nothing has happened.
   */
  ghost predicate Flushing(c: VnmContainer, h0: Handle, nodes0: Nodes, free0: nat, h: Handle, nodes: Nodes, free: nat,
                           left: set<nat>) {
    && h.dirty == h0.dirty && left <= h.dirty && left * {0} == h.dirty * {0}
    && Placing(c, h0, free0, h, Continuations(left), free) && SlotsGiven(h0, h)
    && (DirtyCached(h0) == {} ==> nodes == nodes0 && h == h0)
  }

  lemma FlushingStarts(c: VnmContainer, h: Handle, nodes: Nodes, free: nat)
    ensures Flushing(c, h, nodes, free, h, nodes, free, h.dirty)
  {
    hide Placing;
    PlacingStarts(c, h, free);
  }

  lemma PlacingCache(c: VnmContainer, h0: Handle, free0: nat, h: Handle, rest: set<nat>, free: nat)
    requires Placing(c, h0, free0, h, rest, free)
    ensures h.cache == h0.cache
  {
  }

  lemma FlushingStep(c: VnmContainer, h0: Handle, nodes0: Nodes, free0: nat, h: Handle, nodes: Nodes, free: nat,
                     h': Handle, nodes': Nodes, free': nat, left: set<nat>, ci: nat)
    requires Flushing(c, h0, nodes0, free0, h, nodes, free, left) && ci in left && ci >= 1
    requires OneStorable(c, h, ci, free) && ChunkPlaced(h, h', ci) && h'.cache == h.cache && h'.dirty == h.dirty
    requires free' + Takes(h, ci) == free && (h'.metaDirty <==> h.metaDirty || Takes(h, ci) == 1)
    requires ci !in h.cache ==> h' == h && nodes' == nodes
    ensures Flushing(c, h0, nodes0, free0, h', nodes', free', left - {ci})
    ensures Continuations(left - {ci}) == Continuations(left) - {ci}
  {
    hide Placing;
    hide OneStorable;
    hide ChunkPlaced;
    hide Takes;
    hide SlotsGiven;
    assert Continuations(left - {ci}) == Continuations(left) - {ci};
    PlacingCache(c, h0, free0, h, Continuations(left), free);
    OneMoreGiven(h0, h, h', ci);
    PlacingStep(c, h0, free0, h, h', Continuations(left), ci, free, free');
    if ci in h.cache { InDirtyCached(h, ci); }
  }

  lemma FlushingFails(c: VnmContainer, h0: Handle, nodes0: Nodes, free0: nat, h: Handle, nodes: Nodes, free: nat,
                      left: set<nat>, ci: nat)
    requires Flushing(c, h0, nodes0, free0, h, nodes, free, left) && ci in left && ci >= 1
    requires !OneStorable(c, h, ci, free)
    ensures !Storable(c, h0, Continuations(h0.dirty), free0) && left * {0} == h.dirty * {0} && h.dirty == h0.dirty
    ensures SlotsGiven(h0, h)
    ensures DirtyCached(h0) == {} ==> nodes == nodes0 && h == h0
  {
    hide Placing;
    hide Storable;
    PlacingFails(c, h0, free0, h, Continuations(left), ci, free);
  }

  lemma FlushingEnds(c: VnmContainer, h0: Handle, nodes0: Nodes, free0: nat, h: Handle, nodes: Nodes, free: nat,
                     left: set<nat>)
    requires Flushing(c, h0, nodes0, free0, h, nodes, free, left) && Continuations(left) == {}
    ensures left == h.dirty * {0} && Placing(c, h0, free0, h, {}, free) && SlotsGiven(h0, h)
    ensures Storable(c, h0, Continuations(h0.dirty), free0)
    ensures DirtyCached(h0) == {} ==> nodes == nodes0 && h == h0
  {
    hide Placing;
    hide Storable;
    PlacingEnds(c, h0, free0, h, free);
    forall i | i in left ensures i in h.dirty * {0} {
      assert i >= 1 ==> i in Continuations(left);
    }
  }

  /** Step 1 gave up: every chunk counts as dirty again. */
  lemma StoppedStoring(m0: Instant, m: Instant, g: Handle, history: seq<Nodes>, from: nat)
    requires KeptSince(m0.h, m0.nodes, g, m.nodes, m0.chain, history, from) && m.chain == m0.chain
    requires FileOk(m0.h, m0.nodes, m0.chain) && m.h == g.(dirty := m.h.dirty) && m.h.total == m0.h.total
    requires g.dirty <= m.h.dirty && g.dirty * {0} == m.h.dirty * {0} && m.h.dirty == m0.h.dirty
    ensures FileKept(m0, m) && StepSeen(m0, m, history, from)
  {
    hide FileOk;
    hide Linked;
    hide Touched;
    hide FileBytes;
    hide DiskBytes;
    hide Behind;
    hide Shows;
    hide RecordedSize;
    MoreDirty(m0.h, m0.nodes, g, m.h, m.nodes, m0.chain);
  }

  /** Step 1 done. */
  lemma AllStored(c: VnmContainer, m0: Instant, m: Instant, history: seq<Nodes>, from: nat)
    requires KeptSince(m0.h, m0.nodes, m.h.(dirty := m.h.dirty * {0}), m.nodes, m0.chain, history, from)
    requires FileOk(m0.h, m0.nodes, m0.chain)
    requires Placing(c, m0.h, |m0.free|, m.h, {}, |m.free|) && SlotsGiven(m0.h, m.h) && m.chain == m0.chain
    requires m.h == m0.h.(slotMap := m.h.slotMap, metaDirty := m.h.metaDirty)
    requires TakenOff(m0.free, m0.lost, m.free, m.lost, true)
    ensures FileKept(m0, m.Marked(m.h.dirty * {0})) && StepSeen(m0, m.Marked(m.h.dirty * {0}), history, from)
    ensures StoredAll(m0, m)
  {
    hide FileOk;
    hide Linked;
    hide Touched;
    hide FileBytes;
    hide DiskBytes;
    hide Behind;
    hide Shows;
    hide RecordedSize;
    hide Placing;
    hide SlotsGiven;
    hide TakenOff;
    hide StoredAll;
    AllStoredIs(c, m0, m);
  }

  /**
   Since `h0` and `nodes0` the file has kept its bytes within its own and free slots; if the disk was behind
   the handle, it still is, and every state since shows what the disk showed.
   */
  ghost predicate KeptSince(h0: Handle, nodes0: Nodes, h: Handle, nodes: Nodes, chain: seq<nat>, history: seq<Nodes>,
                            from: nat) {
    && Linked(h, nodes, chain) && (FileOk(h, nodes, chain) <==> FileOk(h0, nodes0, chain))
    && FileBytes(h, nodes) == FileBytes(h0, nodes0) && h.head == h0.head
    && Touched(h0, chain, nodes0, h, chain, nodes)
    && (Behind(h0, nodes0) ==>
          && Behind(h, nodes) && RecordedSize(nodes, h0.head) == RecordedSize(nodes0, h0.head)
          && DiskBytes(nodes, h0.head, []) == DiskBytes(nodes0, h0.head, [])
          && Shows(history, from, h0.head, DiskBytes(nodes0, h0.head, [])))
  }

  lemma KeptStarts(h: Handle, nodes: Nodes, chain: seq<nat>, history: seq<Nodes>)
    requires Linked(h, nodes, chain)
    ensures KeptSince(h, nodes, h, nodes, chain, history, |history|)
  {
    hide FileOk;
    hide Linked;
    hide Behind;
    hide DiskBytes;
    hide FileBytes;
    hide Touched;
    LinkedParts(h, nodes, chain);
  }

  lemma SinceParts(h0: Handle, nodes0: Nodes, h: Handle, nodes: Nodes, chain: seq<nat>, history: seq<Nodes>, from: nat)
    requires KeptSince(h0, nodes0, h, nodes, chain, history, from)
    ensures Linked(h, nodes, chain) && (FileOk(h, nodes, chain) <==> FileOk(h0, nodes0, chain))
    ensures FileBytes(h, nodes) == FileBytes(h0, nodes0)
    ensures Touched(h0, chain, nodes0, h, chain, nodes)
    ensures Behind(h0, nodes0) ==>
              && Behind(h, nodes) && RecordedSize(nodes, h0.head) == RecordedSize(nodes0, h0.head)
              && DiskBytes(nodes, h0.head, []) == DiskBytes(nodes0, h0.head, [])
              && Shows(history, from, h0.head, DiskBytes(nodes0, h0.head, []))
  {
    hide FileOk;
    hide Linked;
    hide Behind;
    hide DiskBytes;
    hide FileBytes;
    hide Touched;
    hide Shows;
  }

  /** One more step that keeps the bytes and records at most the state it leaves. */
  lemma KeptStep(h0: Handle, nodes0: Nodes, h: Handle, nodes: Nodes, h': Handle, nodes': Nodes, chain: seq<nat>,
                 history: seq<Nodes>, history': seq<Nodes>, from: nat)
    requires KeptSince(h0, nodes0, h, nodes, chain, history, from) && history' in {history, history + [nodes']}
    requires Linked(h', nodes', chain) && (FileOk(h', nodes', chain) <==> FileOk(h, nodes, chain))
    requires FileBytes(h', nodes') == FileBytes(h, nodes) && h'.head == h.head
    requires Touched(h, chain, nodes, h', chain, nodes')
    requires Behind(h, nodes) ==>
               && Behind(h', nodes') && RecordedSize(nodes', h.head) == RecordedSize(nodes, h.head)
               && DiskBytes(nodes', h.head, []) == DiskBytes(nodes, h.head, [])
    ensures KeptSince(h0, nodes0, h', nodes', chain, history', from)
  {
    hide FileOk;
    hide Linked;
    hide Behind;
    hide DiskBytes;
    hide FileBytes;
    hide Touched;
    hide Shows;
    hide RecordedSize;
    TouchedTrans(h0, chain, nodes0, h, chain, nodes, h', chain, nodes');
    ShowsMore(history, history', from, nodes', h0.head, DiskBytes(nodes0, h0.head, []));
  }

  lemma ShowsMore(history: seq<Nodes>, history': seq<Nodes>, from: nat, nodes: Nodes, head: nat, b: seq<byte>)
    requires history' in {history, history + [nodes]}
    ensures Shows(history, from, head, b) && DiskBytes(nodes, head, []) == b ==> Shows(history', from, head, b)
  {
    hide DiskBytes;
  }

  lemma NothingToDrain(h: Handle, nodes: Nodes, n: nat)
    requires SlotsOk(h, nodes) && n == Max(ChunkCount(h.total), 1) && |h.slotMap| == n
    ensures Drained(h, h, nodes, nodes, n)
  {
    SlotsBetweenNone(h, n);
  }

  lemma SlotsBetweenNone(h: Handle, n: nat)
    requires n <= |h.slotMap|
    ensures SlotsBetween(h, n, n) == {}
  {
  }

  lemma NothingFreed(m: seq<Option<nat>>, n: nat, free: seq<nat>)
    requires n <= |m|
    ensures FreedAll(free, Allocated(m[n..n])) == free
  {
  }

  lemma OneMoreFreed(m: seq<Option<nat>>, n: nat, i: nat, free: seq<nat>)
    requires n <= i < |m|
    ensures FreedAll(free, Allocated(m[n..i + 1])) ==
              if m[i].Some? then FreeList.Insert(FreedAll(free, Allocated(m[n..i])), m[i].value)
              else FreedAll(free, Allocated(m[n..i]))
  {
    assert m[n..i + 1] == m[n..i] + [m[i]];
    AllocatedAppend(m[n..i], m[i]);
    if m[i].Some? {
      FreedAppend(free, Allocated(m[n..i]), m[i].value);
    } else {
      assert Allocated(m[n..i]) + [] == Allocated(m[n..i]);
    }
  }

  lemma AnyDirtyTail(h: Handle, h': Handle, n: nat)
    requires h'.slotMap == h.slotMap
    ensures TailSlots(h, n) == TailSlots(h', n)
    ensures n <= |h.slotMap| ==> SlotsBetween(h, n, |h.slotMap|) == TailSlots(h', n)
  {
  }

  lemma ChunkCountMonotone(a: nat, b: nat)
    requires a <= b
    ensures ChunkCount(a) <= ChunkCount(b)
  {
  }

  /** Nothing done, nothing shown. */
  lemma UnseenStart(h: Handle, nodes: Nodes, history: seq<Nodes>)
    ensures Unseen(h, nodes, nodes, history, |history|)
  {
  }

  /** Freeing entry i of the excess part, in the middle of the drain, shows nothing either. */
  lemma FreeTail(h: Handle, nodes0: Nodes, nodes: Nodes, nodes': Nodes, history: seq<Nodes>, from: nat, i: nat, n: nat)
    requires SlotsOk(h, nodes0) && KeysBelow(h, n) && n == Max(ChunkCount(h.total), 1) <= i < |h.slotMap|
    requires h.slotMap[i].Some? && nodes' == nodes - {h.slotMap[i].value}
    requires Unseen(h, nodes0, nodes, history, from)
    ensures Unseen(h, nodes0, nodes', history + [nodes'], from)
  {
    hide Behind;
    hide DiskBytes;
    hide RecordedSize;
    if Behind(h, nodes0) && RecordedSize(nodes0, h.head) <= h.total {
      ChunkCountMonotone(RecordedSize(nodes, h.head), h.total);
      FreePastEndInvisible(h, nodes, nodes', i);
    }
  }

  /** A larger size keeps the bytes so far, and is dense exactly when the chunks already reach that far. */
  lemma Extended(h: Handle, nodes: Nodes, chain: seq<nat>, size: nat)
    requires FileOk(h, nodes, chain) && size > h.total
    ensures var h' := h.(total := size, metaDirty := true);
            && (FileOk(h', nodes, chain) <==> Covers(h, nodes, size))
            && FileBytes(h', nodes)[..h.total] == FileBytes(h, nodes)
            && FileBytes(h', nodes) == Contents(h, nodes, size)
  {
    var h' := h.(total := size, metaDirty := true);
    assert forall i: nat :: Stored(h', nodes, i) == Stored(h, nodes, i) && Chunk(h', nodes, i) == Chunk(h, nodes, i);
    assert Covers(h', nodes, size) <==> Covers(h, nodes, size);
    ChunkCountMonotone(h.total, size);
    forall p | 0 <= p < h.total ensures FileBytes(h', nodes)[p] == FileBytes(h, nodes)[p] {
      assert Chunk(h', nodes, p / CHUNK_SIZE) == Chunk(h, nodes, p / CHUNK_SIZE);
    }
  }

  lemma ShrunkFile(h: Handle, nodes: Nodes, chain: seq<nat>, size: nat)
    requires FileOk(h, nodes, chain) && size < h.total
    ensures FileOk(Shrunk(h, size), nodes, chain)
    ensures FileBytes(Shrunk(h, size), nodes) == FileBytes(h, nodes)[..size]
  {
    ShrunkTakesPrefix(h, nodes, size);
  }

  lemma FileOkSlots(h: Handle, nodes: Nodes, chain: seq<nat>)
    requires FileOk(h, nodes, chain)
    ensures SlotsOk(h, nodes)
    ensures forall i :: i in h.cache || i in h.dirty ==> i < |h.slotMap|
  {
  }

  lemma CachedChunkFits(h: Handle, nodes: Nodes, chain: seq<nat>, ci: nat)
    requires FileOk(h, nodes, chain) && ci in h.cache
    ensures |h.cache[ci]| <= CHUNK_SIZE
  {
    assert h.cache[ci] == Chunk(h, nodes, ci);
  }

  lemma TouchedRefl(h: Handle, nodes: Nodes, chain: seq<nat>)
    requires FileOk(h, nodes, chain)
    ensures Touched(h, chain, nodes, h, chain, nodes)
  {
    FootprintInUse(h, nodes, chain);
  }

  lemma ChunkDropped(h: Handle, mid: Handle, h': Handle, nodes: Nodes, nodes': Nodes, ci: nat, slot: nat)
    requires ChunkWritten(h, mid.(dirty := mid.dirty - {ci}), nodes, nodes', ci, slot)
    requires mid.cache == h.cache && h' == mid.(dirty := mid.dirty - {ci}, cache := mid.cache - {ci})
    ensures ChunkWritten(h, h', nodes, nodes', ci, slot)
  {
  }

  /** One chunk written through keeps the file, its bytes, its neighbours and the reader's view of the disk. */
  lemma ChunkStep(h: Handle, h': Handle, nodes: Nodes, nodes': Nodes, chain: seq<nat>, ci: nat, slot: nat)
    requires Linked(h, nodes, chain) && ChunkWritten(h, h', nodes, nodes', ci, slot) && ci in h.dirty
    requires h'.total == h.total && h'.chain == h.chain
    requires !h'.metaDirty ==> !h.metaDirty && h'.slotMap == h.slotMap
    ensures Linked(h', nodes', chain) && (FileOk(h', nodes', chain) <==> FileOk(h, nodes, chain))
    ensures FileBytes(h', nodes') == FileBytes(h, nodes) && Touched(h, chain, nodes, h', chain, nodes')
    ensures RecordedSize(nodes', h.head) == RecordedSize(nodes, h.head)
    ensures Behind(h, nodes) ==> Behind(h', nodes') && DiskBytes(nodes', h.head, []) == DiskBytes(nodes, h.head, [])
  {
    ChunkWrittenSame(h, h', nodes, nodes', ci, slot);
    ChunkWrittenCovers(h, h', nodes, nodes', ci, slot, h.total);
    ChunkSlots(h, h', nodes, nodes', ci, slot);
    FootprintInUse(h, nodes, chain);
    assert forall s :: s in chain ==> s in nodes' && nodes'[s] == nodes[s];
    ChainFrame(nodes, nodes', h.chain, chain);
    LinkedFile(h, nodes, chain);
    LinkedFile(h', nodes', chain);
    if Behind(h, nodes) {
      ChunkWrittenInvisible(h, h', nodes, nodes', ci, slot);
    }
  }

  lemma ChunkSlots(h: Handle, h': Handle, nodes: Nodes, nodes': Nodes, ci: nat, slot: nat)
    requires ChunkWritten(h, h', nodes, nodes', ci, slot)
    ensures DataSlots(h') == DataSlots(h) + {slot}
  {
    forall s | s in DataSlots(h) ensures s in DataSlots(h') {
      var i :| 0 <= i < |h.slotMap| && h.slotMap[i] == Some(s);
      assert h'.slotMap[i] == Some(s);
    }
    assert h'.slotMap[ci] == Some(slot);
    forall s | s in DataSlots(h') ensures s in DataSlots(h) + {slot} {
      var i :| 0 <= i < |h'.slotMap| && h'.slotMap[i] == Some(s);
      assert i != ci ==> h.slotMap[i] == Some(s);
    }
  }

  /** A handle whose bytes were patched in the cache only is still sound. */
  lemma FileAgain(h: Handle, h': Handle, nodes: Nodes, chain: seq<nat>)
    requires FileOk(h, nodes, chain)
    requires SlotsOk(h', nodes) && Covers(h', nodes, h'.total) && KeysBelow(h', Max(1, ChunkCount(h'.total)))
    requires h'.head == h.head && h'.chain == h.chain && DataSlots(h') == DataSlots(h)
    requires !h'.metaDirty ==> !h.metaDirty && h'.total == h.total && h'.slotMap == h.slotMap
    requires h.dirty <= h'.dirty
    ensures FileOk(h', nodes, chain) && FileBytes(h', nodes) == Contents(h', nodes, h'.total)
    ensures Touched(h, chain, nodes, h', chain, nodes)
  {
    FootprintInUse(h, nodes, chain);
  }

  lemma CachedIsLoadable(h: Handle, nodes: Nodes, ci: nat)
    ensures ci in h.cache ==> Loaded(h, h, nodes, ci)
  {
  }

  /** The chunk of a position inside the file can be loaded. */
  lemma CoversLoadable(h: Handle, nodes: Nodes, chain: seq<nat>, pos: nat)
    requires FileOk(h, nodes, chain) && pos < h.total
    ensures Loadable(h, nodes, pos / CHUNK_SIZE) && pos / CHUNK_SIZE < ChunkCount(h.total)
  {
    PositionInChunk(pos, h.total);
    var ci := pos / CHUNK_SIZE;
    NeedFacts(ci, h.total);
    assert Need(ci, h.total) <= |Chunk(h, nodes, ci)|;
  }

  /** A cached chunk reaches past every position of the file inside it. */
  lemma CachedReaches(h: Handle, nodes: Nodes, chain: seq<nat>, pos: nat)
    requires FileOk(h, nodes, chain) && pos < h.total && pos / CHUNK_SIZE in h.cache
    ensures pos % CHUNK_SIZE < |h.cache[pos / CHUNK_SIZE]|
  {
    PositionInChunk(pos, h.total);
    assert Need(pos / CHUNK_SIZE, h.total) <= |Chunk(h, nodes, pos / CHUNK_SIZE)|;
  }

  lemma LoadedKeepsFile(h: Handle, h': Handle, nodes: Nodes, chain: seq<nat>, ci: nat)
    requires FileOk(h, nodes, chain) && Loaded(h, h', nodes, ci) && ci < ChunkCount(h.total)
    ensures FileOk(h', nodes, chain) && FileBytes(h', nodes) == FileBytes(h, nodes)
    ensures Behind(h, nodes) ==> Behind(h', nodes)
  {
    LoadedKeeps(h, h', nodes, ci, h.total);
    if Behind(h, nodes) { LoadedBehind(h, h', nodes, ci); }
  }

  lemma LoadedBehind(h: Handle, h': Handle, nodes: Nodes, ci: nat)
    requires Behind(h, nodes) && Loaded(h, h', nodes, ci)
    ensures Behind(h', nodes)
  {
    var k := nodes[h.head].totalSize;
    forall i: nat
      ensures Stored(h', nodes, i) == Stored(h, nodes, i)
      ensures Need(i, k) <= |Chunk(h', nodes, i)|
      ensures Chunk(h', nodes, i)[..Need(i, k)] == Stored(h', nodes, i)[..Need(i, k)]
    {
      assert Need(i, k) <= |Chunk(h, nodes, i)| && Need(i, k) <= |Stored(h, nodes, i)|;
      assert Chunk(h, nodes, i)[..Need(i, k)] == Stored(h, nodes, i)[..Need(i, k)];
    }
  }

  /** A run of bytes inside one cached chunk is that run of the file. */
  lemma ChunkSlice(h: Handle, nodes: Nodes, chain: seq<nat>, pos: nat, take: nat)
    requires FileOk(h, nodes, chain) && pos + take <= h.total && take > 0
    requires pos / CHUNK_SIZE in h.cache && pos % CHUNK_SIZE + take <= |h.cache[pos / CHUNK_SIZE]|
    ensures h.cache[pos / CHUNK_SIZE][pos % CHUNK_SIZE..pos % CHUNK_SIZE + take] == FileBytes(h, nodes)[pos..pos + take]
  {
    hide IsChain;
    hide Synced;
    hide Walk;
    var ci, off := pos / CHUNK_SIZE, pos % CHUNK_SIZE;
    assert h.cache[ci] == Chunk(h, nodes, ci) && |h.cache[ci]| <= CHUNK_SIZE;
    var a, b := h.cache[ci][off..off + take], FileBytes(h, nodes)[pos..pos + take];
    forall j | 0 <= j < take ensures a[j] == b[j] {
      PositionInChunk(pos + j, h.total);
      assert (pos + j) / CHUNK_SIZE == ci && (pos + j) % CHUNK_SIZE == off + j;
    }
  }
}
