/**
 What a write makes of a handle (vnmcore/src/fs/fuse.rs, `op_write` and `write_through_flush`): chunk by
 chunk the data goes into the cache, then the lowest dirty chunks may leave it for their slots.
 */
module WriteSteps {
  import opened Wrappers
  import opened Bytes
  import opened VaultFs
  import opened Handle
  import opened FileState
  import opened FlushLimits

  // ── The chunks of a write ─────────────────────────────────────────────────

  /** Some of n bytes from `offset` on fall into chunk i. */
  predicate FallsInto(i: nat, offset: nat, n: nat) {
    n > 0 && offset / CHUNK_SIZE <= i <= (offset + n - 1) / CHUNK_SIZE
  }

  /** The chunks that n bytes from `offset` on fall into. */
  function Touches(offset: nat, n: nat): set<nat> {
    set i: nat | i <= (offset + n) / CHUNK_SIZE && FallsInto(i, offset, n)
  }

  /** One more stretch, up to a chunk boundary or less, falls into one more chunk. */
  lemma FallsMore(offset: nat, pos: nat, take: nat, n: nat, n': nat)
    requires offset <= pos && n == pos - offset && n' == n + take
    requires 1 <= take <= CHUNK_SIZE - pos % CHUNK_SIZE && (pos > offset ==> pos % CHUNK_SIZE == 0)
    ensures !FallsInto(pos / CHUNK_SIZE, offset, n)
    ensures forall i: nat :: FallsInto(i, offset, n') <==> FallsInto(i, offset, n) || i == pos / CHUNK_SIZE
  {
    var ci := pos / CHUNK_SIZE;
    assert (pos + take - 1) / CHUNK_SIZE == ci;
    if pos > offset { assert (pos - 1) / CHUNK_SIZE == ci - 1; }
  }

  /** The slot map after a write: longer by unallocated entries up to the last chunk written. */
  function LongerMap(m: seq<Option<nat>>, offset: nat, n: nat): seq<Option<nat>> {
    m + Unmapped(if n == 0 || (offset + n - 1) / CHUNK_SIZE < |m| then 0
                 else (offset + n - 1) / CHUNK_SIZE + 1 - |m|)
  }

  lemma WrittenMore(m: seq<Option<nat>>, offset: nat, pos: nat, take: nat)
    requires offset <= pos && 1 <= take <= CHUNK_SIZE - pos % CHUNK_SIZE && (pos > offset ==> pos % CHUNK_SIZE == 0)
    ensures Touches(offset, pos + take - offset) == Touches(offset, pos - offset) + {pos / CHUNK_SIZE}
    ensures LongerMap(m, offset, pos + take - offset) == LongerMap(LongerMap(m, offset, pos - offset), pos, take)
  {
    FallsMore(offset, pos, take, pos - offset, pos + take - offset);
    var ci := pos / CHUNK_SIZE;
    assert (pos + take - 1) / CHUNK_SIZE == ci;
    if pos > offset { assert (pos - 1) / CHUNK_SIZE == ci - 1; }
  }

  // ── One chunk ─────────────────────────────────────────────────────────────

  /** What chunk ci holds before a write into it: in memory, on disk, or nothing yet and then zeros. */
  function Base(h: Handle, nodes: Nodes, ci: nat): seq<byte> {
    if ci in h.cache then h.cache[ci] else OnDisk(h, nodes, ci)
  }

  function OnDisk(h: Handle, nodes: Nodes, ci: nat): seq<byte> {
    if ci == 0 || SlotOf(h, ci).Some? then Stored(h, nodes, ci) else Zeros(CHUNK_SIZE)
  }

  /** Chunk ci has come into memory and at most clean chunks have left it. */
  ghost predicate CameIn(h: Handle, h': Handle, nodes: Nodes, ci: nat) {
    && ci in h'.cache && h'.cache[ci] == Base(h, nodes, ci)
    && (forall k :: k in h'.cache && k != ci ==> k in h.cache && h'.cache[k] == h.cache[k])
    && (forall k :: k in h.cache && k in h.dirty ==> k in h'.cache)
  }

  /** One round of the write loop: the stretch `d` at `pos` of a write that goes up to `end`. */
  ghost predicate ChunkPatched(h: Handle, h': Handle, nodes: Nodes, pos: nat, d: seq<byte>, end: nat) {
    var ci := pos / CHUNK_SIZE;
    && h'.head == h.head && h'.chain == h.chain && h'.total == Max(end, h.total)
    && h'.slotMap == LongerMap(h.slotMap, pos, |d|) && h'.dirty == h.dirty + {ci}
    && (h'.metaDirty <==> h.metaDirty || h'.total != h.total || h'.slotMap != h.slotMap)
    && ci in h'.cache && h'.cache[ci] == Patch(Base(h, nodes, ci), pos % CHUNK_SIZE, d)
    && (forall k :: k in h'.cache && k != ci ==> k in h.cache && h'.cache[k] == h.cache[k])
    && (forall k :: k in h.cache && k in h.dirty ==> k in h'.cache)
  }

  lemma ChunkPatchedIs(h: Handle, h1: Handle, h2: Handle, h': Handle, nodes: Nodes, pos: nat, d: seq<byte>, end: nat)
    requires d != [] && pos % CHUNK_SIZE + |d| <= CHUNK_SIZE
    requires var n := Max(|h.slotMap|, pos / CHUNK_SIZE + 1) - |h.slotMap|;
             h1 == h.(slotMap := h.slotMap + Unmapped(n), metaDirty := h.metaDirty || n > 0)
    requires h2 == h1.(cache := h2.cache) && CameIn(h1, h2, nodes, pos / CHUNK_SIZE)
    requires Patched(h2, h', pos, d) && h'.chain == h2.chain && h'.total == Max(end, h2.total)
    requires h'.metaDirty <==> h2.metaDirty || h'.total != h2.total
    ensures ChunkPatched(h, h', nodes, pos, d, end)
  {
    var ci := pos / CHUNK_SIZE;
    assert (pos + |d| - 1) / CHUNK_SIZE == ci;
    assert h1.slotMap == LongerMap(h.slotMap, pos, |d|);
    assert SlotOf(h1, ci) == SlotOf(h, ci);
    assert Stored(h1, nodes, ci) == Stored(h, nodes, ci);
  }

  // ── The write loop ────────────────────────────────────────────────────────

  /** Where the data starts in chunk k. */
  function StartIn(offset: nat, k: nat): nat {
    Max(offset, k * CHUNK_SIZE) - k * CHUNK_SIZE
  }

  /** The data that falls into chunk k. */
  function PartIn(offset: nat, data: seq<byte>, k: nat): seq<byte> {
    var lo, hi := Max(offset, k * CHUNK_SIZE) - offset, Min(offset + |data|, (k + 1) * CHUNK_SIZE) - offset;
    if 0 <= lo <= hi <= |data| then data[lo..hi] else []
  }

  /** The next stretch of the loop is what falls into its chunk. */
  lemma StretchIsPart(offset: nat, data: seq<byte>, pos: nat, take: nat)
    requires offset <= pos < offset + |data| && (pos > offset ==> pos % CHUNK_SIZE == 0)
    requires take == Min(CHUNK_SIZE - pos % CHUNK_SIZE, offset + |data| - pos)
    ensures data[pos - offset..pos - offset + take] == PartIn(offset, data, pos / CHUNK_SIZE)
    ensures pos % CHUNK_SIZE == StartIn(offset, pos / CHUNK_SIZE)
  {
  }

  /** Chunk k once the data is in it; a clean chunk may have been dropped and loaded again before. */
  ghost predicate Overwritten(h: Handle, nodes: Nodes, offset: nat, data: seq<byte>, k: nat, chunk: seq<byte>) {
    || chunk == Patch(Base(h, nodes, k), StartIn(offset, k), PartIn(offset, data, k))
    || (k !in h.dirty && chunk == Patch(OnDisk(h, nodes, k), StartIn(offset, k), PartIn(offset, data, k)))
  }

  /** The cache of a write that has come to n bytes: the chunks written so far are patched, the others as they were. */
  ghost predicate CacheOf(h0: Handle, nodes: Nodes, offset: nat, data: seq<byte>, n: nat, h: Handle) {
    && (forall k :: k in h.cache ==>
          if FallsInto(k, offset, n) then Overwritten(h0, nodes, offset, data, k, h.cache[k])
          else k in h0.cache && h.cache[k] == h0.cache[k])
    && (forall k: nat :: (k in h0.cache && k in h0.dirty) || FallsInto(k, offset, n) ==> k in h.cache)
  }

  /** The books of a write to `end` that has come to n bytes. */
  ghost predicate BooksOf(h0: Handle, h: Handle, offset: nat, n: nat, end: nat) {
    && h.head == h0.head && h.chain == h0.chain
    && h.dirty == h0.dirty + Touches(offset, n) && h.slotMap == LongerMap(h0.slotMap, offset, n)
    && h.total == (if n == 0 then h0.total else Max(end, h0.total))
    && (h.metaDirty <==> h0.metaDirty || h.total != h0.total || h.slotMap != h0.slotMap)
  }

  /** What a write has made of the handle once it has come to `pos`. */
  ghost predicate WrittenUpTo(h0: Handle, nodes: Nodes, offset: nat, data: seq<byte>, pos: nat, h: Handle) {
    var end := offset + |data|;
    && offset <= pos <= end && (pos == end || pos == offset || pos % CHUNK_SIZE == 0)
    && BooksOf(h0, h, offset, pos - offset, end) && DataSlots(h) == DataSlots(h0)
    && CacheOf(h0, nodes, offset, data, pos - offset, h)
  }

  lemma NothingWritten(h: Handle, nodes: Nodes, offset: nat, data: seq<byte>)
    ensures WrittenUpTo(h, nodes, offset, data, offset, h)
  {
    assert Touches(offset, 0) == {};
  }

  lemma OneMoreWritten(h0: Handle, nodes: Nodes, offset: nat, data: seq<byte>, pos: nat, h: Handle, h': Handle,
                       take: nat)
    requires WrittenUpTo(h0, nodes, offset, data, pos, h) && pos < offset + |data|
    requires take == Min(CHUNK_SIZE - pos % CHUNK_SIZE, offset + |data| - pos)
    requires ChunkPatched(h, h', nodes, pos, data[pos - offset..pos - offset + take], offset + |data|)
    requires DataSlots(h') == DataSlots(h)
    ensures WrittenUpTo(h0, nodes, offset, data, pos + take, h')
  {
    hide ChunkPatched;
    hide CacheOf;
    hide BooksOf;
    hide DataSlots;
    BooksMore(h0, nodes, offset, data, pos, h, h', take);
    CacheMore(h0, nodes, offset, data, pos, h, h', take);
  }

  lemma BooksMore(h0: Handle, nodes: Nodes, offset: nat, data: seq<byte>, pos: nat, h: Handle, h': Handle, take: nat)
    requires offset <= pos < offset + |data| && (pos > offset ==> pos % CHUNK_SIZE == 0)
    requires take == Min(CHUNK_SIZE - pos % CHUNK_SIZE, offset + |data| - pos)
    requires BooksOf(h0, h, offset, pos - offset, offset + |data|)
    requires ChunkPatched(h, h', nodes, pos, data[pos - offset..pos - offset + take], offset + |data|)
    ensures BooksOf(h0, h', offset, pos + take - offset, offset + |data|)
  {
    hide Touches;
    hide Base;
    WrittenMore(h0.slotMap, offset, pos, take);
  }

  lemma CacheMore(h0: Handle, nodes: Nodes, offset: nat, data: seq<byte>, pos: nat, h: Handle, h': Handle, take: nat)
    requires offset <= pos < offset + |data| && (pos > offset ==> pos % CHUNK_SIZE == 0)
    requires take == Min(CHUNK_SIZE - pos % CHUNK_SIZE, offset + |data| - pos)
    requires BooksOf(h0, h, offset, pos - offset, offset + |data|) && CacheOf(h0, nodes, offset, data, pos - offset, h)
    requires ChunkPatched(h, h', nodes, pos, data[pos - offset..pos - offset + take], offset + |data|)
    ensures CacheOf(h0, nodes, offset, data, pos + take - offset, h')
  {
    hide FallsInto;
    hide PartIn;
    hide StartIn;
    hide OnDisk;
    hide Touches;
    var ci := pos / CHUNK_SIZE;
    FallsMore(offset, pos, take, pos - offset, pos + take - offset);
    StretchIsPart(offset, data, pos, take);
    BaseAsBefore(h0, nodes, h, ci, offset, pos - offset, offset + |data|);
    forall k: nat | FallsInto(k, offset, pos - offset) ensures k in h.dirty {
      InTouches(k, offset, pos - offset);
    }
    hide BooksOf;
    assert Overwritten(h0, nodes, offset, data, ci, h'.cache[ci]);
  }

  lemma InTouches(k: nat, offset: nat, n: nat)
    requires FallsInto(k, offset, n)
    ensures k in Touches(offset, n)
  {
  }

  lemma BaseAsBefore(h0: Handle, nodes: Nodes, h: Handle, ci: nat, offset: nat, n: nat, end: nat)
    requires BooksOf(h0, h, offset, n, end)
    ensures OnDisk(h, nodes, ci) == OnDisk(h0, nodes, ci)
  {
    assert SlotOf(h, ci) == SlotOf(h0, ci);
  }

  /** Chunk i is whole, also if it was dropped from memory and loaded again. */
  ghost predicate Whole(h: Handle, nodes: Nodes, i: nat) {
    |Chunk(h, nodes, i)| == CHUNK_SIZE && (i in h.cache && i !in h.dirty ==> Stored(h, nodes, i) == h.cache[i])
  }

  /**
   What a write past the end shows: the bytes so far and the data at its place. It is a sound file exactly if
   every chunk before the first one written is whole.
   */
  ghost predicate SparselyFilled(h: Handle, nodes: Nodes, chain: seq<nat>, offset: nat, data: seq<byte>,
                                 filled: Handle) {
    if data == [] then
      filled == h
    else
      && filled.total == offset + |data| && h.total < offset
      && FileBytes(filled, nodes)[..h.total] == FileBytes(h, nodes) && FileBytes(filled, nodes)[offset..] == data
      && (FileOk(filled, nodes, chain) <==> forall i :: 0 <= i < offset / CHUNK_SIZE ==> Whole(filled, nodes, i))
  }

  /** `filled` is the handle with the data in its cache, nothing stored yet. */
  ghost predicate Filled(h: Handle, nodes: Nodes, chain: seq<nat>, offset: nat, data: seq<byte>, filled: Handle) {
    && Linked(filled, nodes, chain)
    && BooksOf(h, filled, offset, |data|, offset + |data|)
    && CacheOf(h, nodes, offset, data, |data|, filled)
    && if offset <= h.total then
         FileOk(filled, nodes, chain) && FileBytes(filled, nodes) == Splice(FileBytes(h, nodes), offset, data)
       else
         SparselyFilled(h, nodes, chain, offset, data, filled)
  }

  lemma PatchAt(chunk: seq<byte>, off: nat, d: seq<byte>, o: nat)
    requires off <= o < off + |d|
    ensures o < |Patch(chunk, off, d)| && Patch(chunk, off, d)[o] == d[o - off]
  {
  }

  lemma PartAt(offset: nat, data: seq<byte>, p: nat)
    requires offset <= p < offset + |data|
    ensures var k, o := p / CHUNK_SIZE, p % CHUNK_SIZE;
            && FallsInto(k, offset, |data|)
            && StartIn(offset, k) <= o < StartIn(offset, k) + |PartIn(offset, data, k)|
            && PartIn(offset, data, k)[o - StartIn(offset, k)] == data[p - offset]
  {
  }

  /** The data is where it was written. */
  lemma DataShown(h0: Handle, nodes: Nodes, offset: nat, data: seq<byte>, h: Handle, p: nat)
    requires CacheOf(h0, nodes, offset, data, |data|, h) && offset <= p < offset + |data|
    ensures ByteAt(Chunk(h, nodes, p / CHUNK_SIZE), p % CHUNK_SIZE) == data[p - offset]
  {
    hide OnDisk;
    hide Base;
    hide FallsInto;
    hide StartIn;
    hide PartIn;
    hide Patch;
    var k, o := p / CHUNK_SIZE, p % CHUNK_SIZE;
    PartAt(offset, data, p);
    assert k in h.cache && Overwritten(h0, nodes, offset, data, k, h.cache[k]);
    PatchAt(Base(h0, nodes, k), StartIn(offset, k), PartIn(offset, data, k), o);
    PatchAt(OnDisk(h0, nodes, k), StartIn(offset, k), PartIn(offset, data, k), o);
  }

  /** A chunk written to reaches as far as the data goes in it. */
  lemma WrittenReaches(h0: Handle, nodes: Nodes, offset: nat, data: seq<byte>, h: Handle, k: nat)
    requires CacheOf(h0, nodes, offset, data, |data|, h) && FallsInto(k, offset, |data|)
    ensures k in h.cache && Need(k, offset + |data|) <= |h.cache[k]|
  {
    hide OnDisk;
    assert Overwritten(h0, nodes, offset, data, k, h.cache[k]);
    assert StartIn(offset, k) + |PartIn(offset, data, k)| == Need(k, offset + |data|);
  }

  /** When a write past the end leaves a sound file. */
  lemma SparseIsFile(h0: Handle, nodes: Nodes, chain: seq<nat>, offset: nat, data: seq<byte>, h: Handle)
    requires h0.total < offset && data != [] && Linked(h, nodes, chain) && Covers(h, nodes, h0.total)
    requires BooksOf(h0, h, offset, |data|, offset + |data|) && CacheOf(h0, nodes, offset, data, |data|, h)
    ensures FileOk(h, nodes, chain) <==> forall i :: 0 <= i < offset / CHUNK_SIZE ==> Whole(h, nodes, i)
  {
    hide FileOk;
    hide Linked;
    hide CacheOf;
    LinkedFile(h, nodes, chain);
    var end := offset + |data|;
    assert h.total == end && h.dirty == h0.dirty + Touches(offset, |data|);
    hide BooksOf;
    forall i: nat ensures i < offset / CHUNK_SIZE ==> Need(i, end) == CHUNK_SIZE {
    }
    if forall i :: 0 <= i < offset / CHUNK_SIZE ==> Whole(h, nodes, i) {
      LinkedCount(h, nodes, chain);
      forall i: nat
        ensures Need(i, end) <= |Chunk(h, nodes, i)| <= CHUNK_SIZE
        ensures i in h.cache && i !in h.dirty ==>
                  && Need(i, end) <= |Stored(h, nodes, i)|
                  && Stored(h, nodes, i)[..Need(i, end)] == h.cache[i][..Need(i, end)]
      {
        assert |Chunk(h, nodes, i)| <= CHUNK_SIZE;
        if i < offset / CHUNK_SIZE {
          assert Whole(h, nodes, i);
        } else if FallsInto(i, offset, |data|) {
          InTouches(i, offset, |data|);
          WrittenReaches(h0, nodes, offset, data, h, i);
        } else {
          assert Need(i, end) == 0;
        }
      }
      assert Covers(h, nodes, end);
    }
    if FileOk(h, nodes, chain) {
      LinkedSlots(h, nodes, chain);
      forall i | 0 <= i < offset / CHUNK_SIZE ensures Whole(h, nodes, i) {
        assert Need(i, end) <= |Chunk(h, nodes, i)| <= CHUNK_SIZE;
        StoredBound(h, nodes, i);
      }
    }
  }

  lemma LinkedCount(h: Handle, nodes: Nodes, chain: seq<nat>)
    requires Linked(h, nodes, chain)
    ensures ChunkCount(h.total) <= |h.slotMap|
  {
  }

  lemma LinkedSlots(h: Handle, nodes: Nodes, chain: seq<nat>)
    requires Linked(h, nodes, chain)
    ensures SlotsOk(h, nodes)
  {
  }

  /** What a write past the end shows. */
  lemma SparseShows(h0: Handle, nodes: Nodes, chain: seq<nat>, offset: nat, data: seq<byte>, h: Handle)
    requires h0.total < offset && data != [] && Linked(h, nodes, chain) && Covers(h, nodes, h0.total)
    requires BooksOf(h0, h, offset, |data|, offset + |data|) && CacheOf(h0, nodes, offset, data, |data|, h)
    requires Contents(h, nodes, h0.total) == FileBytes(h0, nodes)
    ensures SparselyFilled(h0, nodes, chain, offset, data, h)
  {
    SparseIsFile(h0, nodes, chain, offset, data, h);
    SparseTotal(h0, h, offset, data);
    hide FileOk;
    hide Linked;
    hide Covers;
    hide BooksOf;
    hide Whole;
    SparseTail(h0, nodes, offset, data, h);
    hide CacheOf;
    PrefixShown(h, nodes, h0.total);
  }

  lemma SparseTotal(h0: Handle, h: Handle, offset: nat, data: seq<byte>)
    requires BooksOf(h0, h, offset, |data|, offset + |data|) && h0.total < offset && data != []
    ensures h.total == offset + |data|
  {
  }

  lemma SparseTail(h0: Handle, nodes: Nodes, offset: nat, data: seq<byte>, h: Handle)
    requires CacheOf(h0, nodes, offset, data, |data|, h) && h.total == offset + |data|
    ensures FileBytes(h, nodes)[offset..] == data
  {
    hide CacheOf;
    hide Chunk;
    hide ByteAt;
    var b := FileBytes(h, nodes);
    forall p | offset <= p < offset + |data| ensures b[p] == data[p - offset] {
      DataShown(h0, nodes, offset, data, h, p);
    }
  }

  lemma PrefixShown(h: Handle, nodes: Nodes, size: nat)
    requires size <= h.total
    ensures FileBytes(h, nodes)[..size] == Contents(h, nodes, size)
  {
    hide Chunk;
    hide ByteAt;
  }

  /**
   Before the call: a write past the end leaves a sound file if every chunk before the first one written is
   whole, and if no chunk has to leave memory for it, only then.
   */
  lemma SparseIff(h0: Handle, nodes: Nodes, chain: seq<nat>, offset: nat, data: seq<byte>, h: Handle)
    requires Filled(h0, nodes, chain, offset, data, h) && h0.total < offset && data != []
    ensures (forall i :: 0 <= i < offset / CHUNK_SIZE ==> Whole(h0, nodes, i)) ==> FileOk(h, nodes, chain)
    ensures h0.cache.Keys <= h.cache.Keys && FileOk(h, nodes, chain) ==>
              forall i :: 0 <= i < offset / CHUNK_SIZE ==> Whole(h0, nodes, i)
  {
    forall i: nat | i < offset / CHUNK_SIZE
      ensures Whole(h0, nodes, i) ==> Whole(h, nodes, i)
      ensures h0.cache.Keys <= h.cache.Keys && Whole(h, nodes, i) ==> Whole(h0, nodes, i)
    {
      WholeBefore(h0, nodes, offset, data, h, i);
    }
    hide Whole;
    hide FileOk;
    hide CacheOf;
    hide BooksOf;
    hide Linked;
  }

  /** If no chunk leaves memory, the same chunks are whole before and after. */
  lemma WholeBefore(h0: Handle, nodes: Nodes, offset: nat, data: seq<byte>, h: Handle, i: nat)
    requires BooksOf(h0, h, offset, |data|, offset + |data|) && CacheOf(h0, nodes, offset, data, |data|, h)
    requires i < offset / CHUNK_SIZE
    ensures Whole(h0, nodes, i) ==> Whole(h, nodes, i)
    ensures h0.cache.Keys <= h.cache.Keys ==> (Whole(h, nodes, i) <==> Whole(h0, nodes, i))
  {
    NotWritten(h0, nodes, offset, data, h, i);
    hide BooksOf;
    hide CacheOf;
    hide Stored;
    if i in h0.cache && h0.cache.Keys <= h.cache.Keys { assert i in h.cache.Keys; }
  }

  /** A chunk before the first one written is as it was, in memory or not. */
  lemma NotWritten(h0: Handle, nodes: Nodes, offset: nat, data: seq<byte>, h: Handle, i: nat)
    requires BooksOf(h0, h, offset, |data|, offset + |data|) && CacheOf(h0, nodes, offset, data, |data|, h)
    requires i < offset / CHUNK_SIZE
    ensures Stored(h, nodes, i) == Stored(h0, nodes, i) && (i in h.dirty <==> i in h0.dirty)
    ensures i in h.cache ==> i in h0.cache && h.cache[i] == h0.cache[i]
    ensures i in h0.cache && i in h0.dirty ==> i in h.cache
  {
    hide Overwritten;
    assert !FallsInto(i, offset, |data|);
    assert SlotOf(h, i) == SlotOf(h0, i);
  }

  lemma AllWritten(h0: Handle, nodes: Nodes, offset: nat, data: seq<byte>, h: Handle)
    requires WrittenUpTo(h0, nodes, offset, data, offset + |data|, h)
    ensures BooksOf(h0, h, offset, |data|, offset + |data|) && CacheOf(h0, nodes, offset, data, |data|, h)
    ensures DataSlots(h) == DataSlots(h0) && h0.dirty <= h.dirty
    ensures !h.metaDirty ==> !h0.metaDirty && h.total == h0.total && h.slotMap == h0.slotMap
    ensures h0.dirty <= h0.cache.Keys ==> h.dirty <= h.cache.Keys
  {
    hide Overwritten;
    hide LongerMap;
    hide DataSlots;
  }

  // ── Write-through ─────────────────────────────────────────────────────────

  /** Chunk ci has been stored and dropped, if it was in memory. */
  ghost predicate ChunkGone(h: Handle, nodes: Nodes, h': Handle, nodes': Nodes, ci: nat) {
    if ci in h.cache && ci < |h.slotMap| then
      && h' == h.(slotMap := h'.slotMap, cache := h.cache - {ci}, dirty := h.dirty - {ci}, metaDirty := h'.metaDirty)
      && |h'.slotMap| == |h.slotMap| && h'.slotMap[ci].Some? && h'.slotMap == h.slotMap[ci := h'.slotMap[ci]]
      && (h.slotMap[ci].Some? ==> h'.slotMap[ci] == h.slotMap[ci])
      && (h.slotMap[ci].None? ==> h'.slotMap[ci].value !in nodes)
      && (h'.metaDirty <==> h.metaDirty || h.slotMap[ci].None?)
      && nodes' == nodes[h'.slotMap[ci].value := FileData(h.cache[ci])]
    else
      h' == h && nodes' == nodes
  }

  lemma GoneIs(h: Handle, nodes: Nodes, h': Handle, nodes': Nodes, ci: nat, slot: nat)
    requires ChunkWritten(h, h', nodes, nodes', ci, slot) && h'.cache == h.cache - {ci}
    requires h'.total == h.total && h'.chain == h.chain && (h'.metaDirty <==> h.metaDirty || Takes(h, ci) == 1)
    ensures ChunkGone(h, nodes, h', nodes', ci)
  {
    TakesWhen(h, ci);
  }

  /** The chunks of `gone` were stored as they were in memory and dropped from it; nothing else has changed. */
  ghost predicate StoredThrough(h: Handle, nodes: Nodes, h': Handle, nodes': Nodes, gone: set<nat>) {
    && gone <= Continuations(h.dirty) && gone <= h.cache.Keys
    && h' == h.(slotMap := h'.slotMap, cache := h.cache - gone, dirty := h.dirty - gone, metaDirty := h'.metaDirty)
    && GivenSlots(h, h', gone)
    && (h'.metaDirty <==> h.metaDirty || Unallocated(h, gone) != {})
    && StoredNodes(h, nodes, h', nodes', gone)
  }

  /** Only the chunks of `gone` may have got a slot, and each of them has one. */
  ghost predicate GivenSlots(h: Handle, h': Handle, gone: set<nat>) {
    && |h'.slotMap| == |h.slotMap|
    && forall i :: 0 <= i < |h.slotMap| ==>
         if i in gone && h.slotMap[i].None? then h'.slotMap[i].Some? else h'.slotMap[i] == h.slotMap[i]
  }

  /** The slots of the chunks of `gone` hold them, new slots those without one; every other node is as it was. */
  ghost predicate StoredNodes(h: Handle, nodes: Nodes, h': Handle, nodes': Nodes, gone: set<nat>) {
    && (forall i :: i in gone && i in h.cache ==>
          SlotOf(h', i).Some? && SlotOf(h', i).value in nodes' && nodes'[SlotOf(h', i).value] == FileData(h.cache[i]))
    && (forall s :: s in nodes ==>
          s in nodes' && (nodes'[s] == nodes[s] || exists i :: i in gone && SlotOf(h', i) == Some(s)))
    && (forall s :: s in nodes' && s !in nodes ==> exists i :: i in gone && SlotOf(h', i) == Some(s))
  }

  /** The chunks of `chosen` in memory were stored and dropped, on a failure only the lowest of them. */
  ghost predicate Through(h: Handle, nodes: Nodes, h': Handle, nodes': Nodes, chosen: set<nat>, ok: bool) {
    exists gone ::
      && StoredThrough(h, nodes, h', nodes', gone) && gone <= chosen && (ok ==> gone == chosen * h.cache.Keys)
      && forall x, y :: x in gone && y in chosen && y in h.cache && y !in gone ==> x < y
  }

  lemma NothingGone(h: Handle, nodes: Nodes)
    ensures StoredThrough(h, nodes, h, nodes, {})
  {
  }

  lemma OneMoreGone(h0: Handle, nodes0: Nodes, h: Handle, nodes: Nodes, h': Handle, nodes': Nodes, gone: set<nat>,
                    ci: nat)
    requires StoredThrough(h0, nodes0, h, nodes, gone) && ChunkGone(h, nodes, h', nodes', ci) && SlotsOk(h, nodes)
    requires ci !in gone && ci in h.dirty && ci >= 1 && (ci in h.cache ==> ci < |h.slotMap|)
    ensures StoredThrough(h0, nodes0, h', nodes', gone + (if ci in h0.cache then {ci} else {}))
  {
    hide StoredNodes;
    hide GivenSlots;
    hide Unallocated;
    hide SlotsOk;
    if ci in h.cache {
      OneMoreStored(h0, nodes0, h, nodes, h', nodes', gone, ci);
      OneMoreSlot(h0, h, h', gone, ci);
      UnallocatedMore(h0, gone, ci);
      assert h0.cache - (gone + {ci}) == h0.cache - gone - {ci};
      assert h0.dirty - (gone + {ci}) == h0.dirty - gone - {ci};
    } else {
      assert gone + {} == gone;
    }
  }

  lemma OneMoreSlot(h0: Handle, h: Handle, h': Handle, gone: set<nat>, ci: nat)
    requires GivenSlots(h0, h, gone) && ci !in gone && ci < |h.slotMap| == |h'.slotMap|
    requires h'.slotMap == h.slotMap[ci := h'.slotMap[ci]]
    requires if h.slotMap[ci].Some? then h'.slotMap[ci] == h.slotMap[ci] else h'.slotMap[ci].Some?
    ensures GivenSlots(h0, h', gone + {ci}) && |h0.slotMap| == |h.slotMap| && h.slotMap[ci] == h0.slotMap[ci]
  {
  }

  lemma UnallocatedMore(h: Handle, gone: set<nat>, ci: nat)
    requires ci in h.cache && ci < |h.slotMap|
    ensures Unallocated(h, gone + {ci}) != {} <==> Unallocated(h, gone) != {} || h.slotMap[ci].None?
  {
    if h.slotMap[ci].None? { assert ci in Unallocated(h, gone + {ci}); }
    if x :| x in Unallocated(h, gone) { assert x in Unallocated(h, gone + {ci}); }
    if x :| x in Unallocated(h, gone + {ci}) { assert x == ci || x in Unallocated(h, gone); }
  }

  lemma OneMoreStored(h0: Handle, nodes0: Nodes, h: Handle, nodes: Nodes, h': Handle, nodes': Nodes, gone: set<nat>,
                      ci: nat)
    requires StoredThrough(h0, nodes0, h, nodes, gone) && ChunkGone(h, nodes, h', nodes', ci) && SlotsOk(h, nodes)
    requires ci !in gone && ci in h.cache && ci < |h.slotMap|
    ensures StoredNodes(h0, nodes0, h', nodes', gone + {ci})
  {
    var slot := h'.slotMap[ci].value;
    forall i ensures SlotOf(h', i) == if i == ci then Some(slot) else SlotOf(h, i) {
    }
    forall i | i in gone && i in h0.cache ensures SlotOf(h, i).Some? && SlotOf(h, i).value != slot {
    }
    hide SlotOf;
    hide SlotsOk;
    hide GivenSlots;
    NodesMore(h0, nodes0, h, nodes, h', nodes', gone, ci, slot);
  }

  lemma NodesMore(h0: Handle, nodes0: Nodes, h: Handle, nodes: Nodes, h': Handle, nodes': Nodes, gone: set<nat>,
                  ci: nat, slot: nat)
    requires StoredNodes(h0, nodes0, h, nodes, gone) && gone <= h0.cache.Keys && ci !in gone
    requires ci in h0.cache && nodes' == nodes[slot := FileData(h0.cache[ci])]
    requires forall i :: SlotOf(h', i) == if i == ci then Some(slot) else SlotOf(h, i)
    requires forall i :: i in gone && i in h0.cache ==> SlotOf(h, i).Some? && SlotOf(h, i).value != slot
    ensures StoredNodes(h0, nodes0, h', nodes', gone + {ci})
  {
    hide SlotOf;
    forall s | s in nodes' && s !in nodes0 ensures exists i :: i in gone + {ci} && SlotOf(h', i) == Some(s) {
      if s != slot {
        var i :| i in gone && SlotOf(h, i) == Some(s);
        assert SlotOf(h', i) == Some(s);
      } else {
        assert SlotOf(h', ci) == Some(s);
      }
    }
    forall s | s in nodes0
      ensures s in nodes' && (nodes'[s] == nodes0[s] || exists i :: i in gone + {ci} && SlotOf(h', i) == Some(s))
    {
      if s == slot {
        assert SlotOf(h', ci) == Some(s);
      } else if nodes'[s] != nodes0[s] {
        var i :| i in gone && SlotOf(h, i) == Some(s);
        assert SlotOf(h', i) == Some(s);
      }
    }
  }
}
