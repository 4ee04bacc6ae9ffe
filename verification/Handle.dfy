/**
 The value of an open file (vnmcore/src/fs/fuse.rs, `OpenFile`) and what it stands for: a plain byte
 sequence spread over 30,000-byte chunks that live in the cache, in the head slot or in data slots.
 */
module Handle {
  import opened Wrappers
  import opened Bytes
  import opened VaultFs

  datatype Handle = Handle(head: nat, total: nat, chain: Option<nat>, slotMap: seq<Option<nat>>,
                           cache: map<nat, seq<byte>>, dirty: set<nat>, metaDirty: bool)

  type Nodes = map<nat, Node>

  // ── Chunk arithmetic ──────────────────────────────────────────────────────

  function Min(a: nat, b: nat): nat { if a < b then a else b }
  function Max(a: nat, b: nat): nat { if a < b then b else a }

  /** Chunks of a file of this size. */
  function ChunkCount(total: nat): nat {
    (total + CHUNK_SIZE - 1) / CHUNK_SIZE
  }

  /** Bytes of chunk i that belong to a file of this size. */
  function Need(i: nat, total: nat): nat {
    if total <= i * CHUNK_SIZE then 0 else Min(total - i * CHUNK_SIZE, CHUNK_SIZE)
  }

  /** `chunk_actual_size`. */
  function ChunkActualSize(ci: nat, total: nat): Option<nat> {
    if ci * CHUNK_SIZE >= total then None else Some(Min(total - ci * CHUNK_SIZE, CHUNK_SIZE))
  }

  /** Position p is at offset p % CHUNK_SIZE of chunk p / CHUNK_SIZE, inside its needed part. */
  lemma PositionInChunk(p: nat, total: nat)
    ensures p == p / CHUNK_SIZE * CHUNK_SIZE + p % CHUNK_SIZE
    ensures p < total <==> p % CHUNK_SIZE < Need(p / CHUNK_SIZE, total)
    ensures p < total ==> p / CHUNK_SIZE < ChunkCount(total)
  {
  }

  lemma NeedFacts(i: nat, total: nat)
    ensures Need(i, total) > 0 <==> i < ChunkCount(total)
    ensures forall t: nat :: t >= total ==> Need(i, total) <= Need(i, t)
  {
  }

  // ── What a handle stands for ──────────────────────────────────────────────

  function SlotOf(h: Handle, i: nat): Option<nat> {
    if i < |h.slotMap| then h.slotMap[i] else None
  }

  function HeadData(nodes: Nodes, head: nat): seq<byte> {
    if head in nodes && nodes[head].File? then nodes[head].data else []
  }

  /** What the disk holds for chunk i: the head's inline data, a data slot, or nothing. */
  function Stored(h: Handle, nodes: Nodes, i: nat): seq<byte> {
    match SlotOf(h, i)
    case Some(s) =>
      if s in nodes && nodes[s].FileData? then nodes[s].bytes else if i == 0 then HeadData(nodes, s) else []
    case None => if i == 0 then HeadData(nodes, h.head) else []
  }

  /** What the handle sees for chunk i: the cache first, else the disk. */
  function Chunk(h: Handle, nodes: Nodes, i: nat): seq<byte> {
    if i in h.cache then h.cache[i] else Stored(h, nodes, i)
  }

  function ByteAt(chunk: seq<byte>, off: nat): byte {
    if off < |chunk| then chunk[off] else 0
  }

  /** The first `size` bytes seen through the handle. */
  function Contents(h: Handle, nodes: Nodes, size: nat): (b: seq<byte>)
    ensures |b| == size
  {
    seq(size, p requires 0 <= p < size => ByteAt(Chunk(h, nodes, p / CHUNK_SIZE), p % CHUNK_SIZE))
  }

  /** The slot map of these continuation ids: nothing for the inline chunk, then one entry per id. */
  function SlotMapOf(ids: seq<nat>): (m: seq<Option<nat>>)
    ensures |m| == 1 + |ids|
  {
    [None] + seq(|ids|, i requires 0 <= i < |ids| => Some(ids[i]))
  }

  /** The slot map points at data nodes, no two chunks share one, and chunk 0 is inline in the head. */
  ghost predicate SlotsOk(h: Handle, nodes: Nodes) {
    && |h.slotMap| >= 1 && h.slotMap[0] == None
    && h.head in nodes && nodes[h.head].File? && |nodes[h.head].data| <= CHUNK_SIZE
    && (forall i :: 0 <= i < |h.slotMap| && h.slotMap[i].Some? ==>
          h.slotMap[i].value in nodes && nodes[h.slotMap[i].value].FileData?
          && |nodes[h.slotMap[i].value].bytes| <= CHUNK_SIZE)
    && (forall i, j :: 0 <= i < j < |h.slotMap| && h.slotMap[i].Some? && h.slotMap[j].Some? ==>
          h.slotMap[i].value != h.slotMap[j].value)
  }

  /** Every one of the first `size` bytes is present, and a clean cached chunk could be dropped. */
  ghost predicate Covers(h: Handle, nodes: Nodes, size: nat) {
    && ChunkCount(size) <= |h.slotMap|
    && (forall i: nat :: Need(i, size) <= |Chunk(h, nodes, i)| <= CHUNK_SIZE)
    && (forall i: nat :: i in h.cache && i !in h.dirty ==>
          Need(i, size) <= |Stored(h, nodes, i)| && Stored(h, nodes, i)[..Need(i, size)] == h.cache[i][..Need(i, size)])
  }

  ghost predicate KeysBelow(h: Handle, n: nat) {
    (forall i :: i in h.cache ==> i < n) && (forall i :: i in h.dirty ==> i < n)
  }

  /** The handle represents a dense file of `total` bytes. */
  ghost predicate Dense(h: Handle, nodes: Nodes) {
    && SlotsOk(h, nodes) && Covers(h, nodes, h.total)
    && KeysBelow(h, Max(1, ChunkCount(h.total)))
  }

  /** The file seen through the handle. */
  function FileBytes(h: Handle, nodes: Nodes): (b: seq<byte>)
    ensures |b| == h.total
  {
    Contents(h, nodes, h.total)
  }

  /** Two views agree when they agree on the needed part of every chunk. */
  lemma SameContents(h: Handle, nodes: Nodes, h': Handle, nodes': Nodes, size: nat)
    requires forall i: nat :: Need(i, size) <= |Chunk(h, nodes, i)| && Need(i, size) <= |Chunk(h', nodes', i)|
    requires forall i: nat :: i < ChunkCount(size) ==>
               Chunk(h, nodes, i)[..Need(i, size)] == Chunk(h', nodes', i)[..Need(i, size)]
    ensures Contents(h, nodes, size) == Contents(h', nodes', size)
  {
    forall p: nat | p < size
      ensures ByteAt(Chunk(h, nodes, p / CHUNK_SIZE), p % CHUNK_SIZE) ==
                ByteAt(Chunk(h', nodes', p / CHUNK_SIZE), p % CHUNK_SIZE)
    {
      PositionInChunk(p, size);
      var i, o := p / CHUNK_SIZE, p % CHUNK_SIZE;
      var n := Need(i, size);
      assert Chunk(h, nodes, i)[..n][o] == Chunk(h', nodes', i)[..n][o];
    }
  }

  // ── Loading a chunk ───────────────────────────────────────────────────────

  /** Whether `ensure_cached` can find chunk i. */
  ghost predicate Loadable(h: Handle, nodes: Nodes, i: nat) {
    i in h.cache || (i < |h.slotMap| && match h.slotMap[i]
      case Some(s) => s in nodes && (nodes[s].FileData? || (i == 0 && nodes[s].File?))
      case None => i == 0 ==> h.head in nodes && nodes[h.head].File?)
  }

  /** Chunk ci has been loaded and at most clean chunks have left the cache. */
  ghost predicate Loaded(h: Handle, h': Handle, nodes: Nodes, ci: nat) {
    && h' == h.(cache := h'.cache)
    && ci in h'.cache && h'.cache[ci] == Chunk(h, nodes, ci)
    && (forall k: nat :: k in h'.cache && k != ci ==> k in h.cache && h'.cache[k] == h.cache[k])
    && (forall k: nat :: k in h.cache && k !in h'.cache ==> k !in h.dirty)
  }

  /** Loading and evicting change nothing visible. */
  lemma LoadedKeeps(h: Handle, h': Handle, nodes: Nodes, ci: nat, size: nat)
    requires SlotsOk(h, nodes) && Covers(h, nodes, size) && Loaded(h, h', nodes, ci)
    ensures SlotsOk(h', nodes) && Covers(h', nodes, size)
    ensures Contents(h', nodes, size) == Contents(h, nodes, size)
  {
    forall i: nat
      ensures Need(i, size) <= |Chunk(h', nodes, i)| <= CHUNK_SIZE
      ensures Chunk(h', nodes, i)[..Need(i, size)] == Chunk(h, nodes, i)[..Need(i, size)]
    {
      assert Need(i, size) <= |Chunk(h, nodes, i)|;
      assert Stored(h', nodes, i) == Stored(h, nodes, i);
      if i in h.cache && i !in h'.cache {
        StoredBound(h, nodes, i);
      }
    }
    SameContents(h, nodes, h', nodes, size);
  }

  lemma StoredBound(h: Handle, nodes: Nodes, i: nat)
    requires SlotsOk(h, nodes)
    ensures |Stored(h, nodes, i)| <= CHUNK_SIZE
  {
  }

  // ── Writing into a cached chunk ───────────────────────────────────────────

  /** Grow with zeros as needed, then overwrite `d` at `off`. */
  function Patch(chunk: seq<byte>, off: nat, d: seq<byte>): (r: seq<byte>)
    ensures |r| == Max(|chunk|, off + |d|)
  {
    var grown := if |chunk| < off + |d| then chunk + Zeros(off + |d| - |chunk|) else chunk;
    grown[..off] + d + grown[off + |d|..]
  }

  /** Overwrite `d` at `off` of a byte sequence, growing it past its end. */
  function Splice(b: seq<byte>, off: nat, d: seq<byte>): (r: seq<byte>)
    requires off <= |b|
    ensures |r| == Max(|b|, off + |d|)
  {
    b[..off] + d + (if off + |d| <= |b| then b[off + |d|..] else [])
  }

  lemma SpliceTwice(b: seq<byte>, off: nat, d: seq<byte>, e: seq<byte>)
    requires off <= |b|
    ensures Splice(Splice(b, off, d), off + |d|, e) == Splice(b, off, d + e)
  {
  }

  /** One cached chunk has been patched. */
  ghost predicate Patched(h: Handle, h': Handle, pos: nat, d: seq<byte>) {
    var ci := pos / CHUNK_SIZE;
    && d != [] && pos % CHUNK_SIZE + |d| <= CHUNK_SIZE
    && ci < |h.slotMap| && ci in h.cache
    && h'.head == h.head && h'.slotMap == h.slotMap && h'.dirty == h.dirty + {ci}
    && h'.cache == h.cache[ci := Patch(h.cache[ci], pos % CHUNK_SIZE, d)]
  }

  lemma PatchCovers(h: Handle, h': Handle, nodes: Nodes, size: nat, pos: nat, d: seq<byte>)
    requires SlotsOk(h, nodes) && Covers(h, nodes, size) && pos <= size && Patched(h, h', pos, d)
    ensures SlotsOk(h', nodes) && Covers(h', nodes, Max(size, pos + |d|))
  {
    var ci := pos / CHUNK_SIZE;
    var size' := Max(size, pos + |d|);
    assert h.cache[ci] == Chunk(h, nodes, ci);
    forall i: nat
      ensures Need(i, size') <= |Chunk(h', nodes, i)| <= CHUNK_SIZE
      ensures i != ci ==> Need(i, size') == Need(i, size)
    {
      assert Need(i, size) <= |Chunk(h, nodes, i)| <= CHUNK_SIZE;
      if i != ci { assert Chunk(h', nodes, i) == Chunk(h, nodes, i); }
    }
    forall i: nat | i in h'.cache && i !in h'.dirty
      ensures Need(i, size') <= |Stored(h', nodes, i)|
      ensures Stored(h', nodes, i)[..Need(i, size')] == h'.cache[i][..Need(i, size')]
    {
      assert i in h.cache && i !in h.dirty && Stored(h', nodes, i) == Stored(h, nodes, i);
    }
  }

  /** A patch past the first `size` bytes leaves them alone. */
  lemma PatchBeyond(h: Handle, h': Handle, nodes: Nodes, size: nat, pos: nat, d: seq<byte>)
    requires SlotsOk(h, nodes) && Covers(h, nodes, size) && size <= pos && Patched(h, h', pos, d)
    ensures Covers(h', nodes, size) && Contents(h', nodes, size) == Contents(h, nodes, size)
  {
    var ci := pos / CHUNK_SIZE;
    assert h.cache[ci] == Chunk(h, nodes, ci);
    forall i: nat
      ensures Stored(h', nodes, i) == Stored(h, nodes, i)
      ensures Need(i, size) <= |Chunk(h', nodes, i)| <= CHUNK_SIZE
      ensures Chunk(h', nodes, i)[..Need(i, size)] == Chunk(h, nodes, i)[..Need(i, size)]
    {
      assert Need(i, size) <= |Chunk(h, nodes, i)| <= CHUNK_SIZE;
      if i == ci {
        assert Need(ci, size) <= pos % CHUNK_SIZE;
      }
    }
    SameContents(h, nodes, h', nodes, size);
  }

  /** Byte by byte: inside the patch the new data, elsewhere what was there. */
  lemma PatchedByte(h: Handle, h': Handle, nodes: Nodes, size: nat, pos: nat, d: seq<byte>, p: nat)
    requires SlotsOk(h, nodes) && Covers(h, nodes, size) && pos <= size && Patched(h, h', pos, d)
    requires p < Max(size, pos + |d|)
    ensures ByteAt(Chunk(h', nodes, p / CHUNK_SIZE), p % CHUNK_SIZE) ==
              if pos <= p < pos + |d| then d[p - pos] else ByteAt(Chunk(h, nodes, p / CHUNK_SIZE), p % CHUNK_SIZE)
  {
    hide SlotsOk;
    hide KeysBelow;
    var ci := pos / CHUNK_SIZE;
    PositionInChunk(p, size);
    if p / CHUNK_SIZE == ci {
      assert h.cache[ci] == Chunk(h, nodes, ci) && Need(ci, size) <= |h.cache[ci]|;
    } else {
      assert p < size;
      assert Chunk(h', nodes, p / CHUNK_SIZE) == Chunk(h, nodes, p / CHUNK_SIZE);
    }
  }

  /** Patching one cached chunk splices the bytes into the file. */
  lemma PatchSplices(h: Handle, h': Handle, nodes: Nodes, size: nat, pos: nat, d: seq<byte>)
    requires SlotsOk(h, nodes) && Covers(h, nodes, size) && pos <= size && Patched(h, h', pos, d)
    ensures Contents(h', nodes, Max(size, pos + |d|)) == Splice(Contents(h, nodes, size), pos, d)
  {
    hide SlotsOk;
    hide Covers;
    hide Patched;
    hide Chunk;
    hide ByteAt;
    var size' := Max(size, pos + |d|);
    var was, now := Splice(Contents(h, nodes, size), pos, d), Contents(h', nodes, size');
    forall p: nat | p < size' ensures now[p] == was[p] {
      PatchedByte(h, h', nodes, size, pos, d, p);
    }
  }

  /** Entries for chunks without a slot. */
  function Unmapped(n: nat): (m: seq<Option<nat>>)
    ensures |m| == n
  {
    seq(n, _ => None)
  }

  /** One write into a chunk past the slot map: the map is filled up with unallocated entries. */
  function ChunkAppended(h: Handle, pos: nat, d: seq<byte>, end: nat): Handle {
    var ci := pos / CHUNK_SIZE;
    h.(slotMap := h.slotMap + Unmapped(if ci + 1 < |h.slotMap| then 0 else ci + 1 - |h.slotMap|),
       cache := h.cache[ci := Patch(Zeros(CHUNK_SIZE), pos % CHUNK_SIZE, d)], dirty := h.dirty + {ci},
       total := Max(end, h.total), metaDirty := true)
  }

  /** Lengthening the slot map with unallocated entries changes nothing. */
  lemma PushKeeps(h: Handle, h': Handle, nodes: Nodes, size: nat)
    requires SlotsOk(h, nodes) && Covers(h, nodes, size)
    requires h'.head == h.head && h'.slotMap == h.slotMap + [None] && h'.dirty == h.dirty && h'.cache == h.cache
    ensures SlotsOk(h', nodes) && Covers(h', nodes, size)
    ensures Contents(h', nodes, size) == Contents(h, nodes, size)
  {
    forall i: nat
      ensures Stored(h', nodes, i) == Stored(h, nodes, i) && Chunk(h', nodes, i) == Chunk(h, nodes, i)
    {
    }
    SameContents(h, nodes, h', nodes, size);
  }

  /** A brand-new chunk of zeros past the end changes nothing. */
  lemma NewChunkKeeps(h: Handle, h': Handle, nodes: Nodes, ci: nat, size: nat)
    requires SlotsOk(h, nodes) && Covers(h, nodes, size)
    requires ci !in h.cache && Need(ci, size) == 0
    requires h' == h.(cache := h.cache[ci := Zeros(CHUNK_SIZE)])
    ensures SlotsOk(h', nodes) && Covers(h', nodes, size)
    ensures Contents(h', nodes, size) == Contents(h, nodes, size)
  {
    forall i: nat
      ensures Stored(h', nodes, i) == Stored(h, nodes, i)
      ensures i != ci ==> Chunk(h', nodes, i) == Chunk(h, nodes, i)
      ensures Need(i, size) <= |Chunk(h', nodes, i)| <= CHUNK_SIZE
    {
      assert Need(i, size) <= |Chunk(h, nodes, i)| <= CHUNK_SIZE;
    }
    SameContents(h, nodes, h', nodes, size);
  }

  // ── Truncation ────────────────────────────────────────────────────────────

  function LastChunk(size: nat): nat {
    if size == 0 then 0 else (size - 1) / CHUNK_SIZE
  }

  function Truncate(s: seq<byte>, n: nat): seq<byte> {
    if n < |s| then s[..n] else s
  }

  /** The handle after shrinking: chunks past the end dropped, the last one clamped and dirty. */
  function Shrunk(h: Handle, size: nat): Handle {
    var last := LastChunk(size);
    h.(total := size, metaDirty := true,
       cache := map k | k in h.cache && k <= last ::
         if k == last then Truncate(h.cache[k], Need(last, size)) else h.cache[k],
       dirty := (set k | k in h.dirty && k <= last) + (if size > 0 then {last} else {}))
  }

  /** Shrinking takes a prefix. */
  lemma ShrunkTakesPrefix(h: Handle, nodes: Nodes, size: nat)
    requires Dense(h, nodes) && size < h.total
    ensures Dense(Shrunk(h, size), nodes)
    ensures FileBytes(Shrunk(h, size), nodes) == FileBytes(h, nodes)[..size]
  {
    hide ByteAt;
    hide HeadData;
    var h', last := Shrunk(h, size), LastChunk(size);
    forall i: nat
      ensures Stored(h', nodes, i) == Stored(h, nodes, i)
      ensures Need(i, size) <= |Chunk(h', nodes, i)| <= CHUNK_SIZE
      ensures i < ChunkCount(size) ==> Chunk(h', nodes, i)[..Need(i, size)] == Chunk(h, nodes, i)[..Need(i, size)]
    {
      NeedFacts(i, size);
      StoredBound(h, nodes, i);
      assert Need(i, size) <= Need(i, h.total) <= |Chunk(h, nodes, i)| <= CHUNK_SIZE;
    }
    forall i: nat ensures Need(i, size) <= |Chunk(h, nodes, i)| {
      NeedFacts(i, size);
      assert Need(i, h.total) <= |Chunk(h, nodes, i)|;
    }
    SameContents(h, nodes, h', nodes, size);
    assert Contents(h, nodes, size) == FileBytes(h, nodes)[..size];
    ShrunkClean(h, nodes, size);
  }

  lemma ShrunkClean(h: Handle, nodes: Nodes, size: nat)
    requires Dense(h, nodes) && size < h.total
    ensures forall i: nat :: i in Shrunk(h, size).cache && i !in Shrunk(h, size).dirty ==>
              Need(i, size) <= |Stored(Shrunk(h, size), nodes, i)|
              && Stored(Shrunk(h, size), nodes, i)[..Need(i, size)] == Shrunk(h, size).cache[i][..Need(i, size)]
  {
    var h' := Shrunk(h, size);
    forall i: nat | i in h'.cache && i !in h'.dirty
      ensures Need(i, size) <= |Stored(h', nodes, i)|
      ensures Stored(h', nodes, i)[..Need(i, size)] == h'.cache[i][..Need(i, size)]
    {
      NeedFacts(i, size);
      assert i in h.cache && i !in h.dirty;
      assert Stored(h', nodes, i) == Stored(h, nodes, i);
      var n, m := Need(i, size), Need(i, h.total);
      if size > 0 {
        assert h'.cache[i] == h.cache[i];
        assert Stored(h, nodes, i)[..m][..n] == h.cache[i][..m][..n];
      }
    }
  }

  /**
   Shrinking and growing again before a flush: the new bytes are those that the data slots still hold, so
   what was cut off comes back, except in the last chunk kept if that was in memory.
   */
  lemma RegrownShows(h: Handle, nodes: Nodes, size: nat, again: nat)
    requires size < h.total && size <= again
    ensures forall p: nat :: size <= p < again ==>
              Contents(Shrunk(h, size), nodes, again)[p] ==
                if p / CHUNK_SIZE == LastChunk(size) && LastChunk(size) in h.cache then 0
                else ByteAt(Stored(h, nodes, p / CHUNK_SIZE), p % CHUNK_SIZE)
  {
    var h' := Shrunk(h, size);
    forall p: nat | size <= p < again
      ensures Contents(h', nodes, again)[p] ==
                if p / CHUNK_SIZE == LastChunk(size) && LastChunk(size) in h.cache then 0
                else ByteAt(Stored(h, nodes, p / CHUNK_SIZE), p % CHUNK_SIZE)
    {
      assert p / CHUNK_SIZE >= LastChunk(size);
      assert Stored(h', nodes, p / CHUNK_SIZE) == Stored(h, nodes, p / CHUNK_SIZE);
    }
  }

  /** With nothing in memory a shrink undone before the flush gives every byte back, where zeros are due. */
  lemma ShrinkUndone(h: Handle, nodes: Nodes, size: nat)
    requires size < h.total && h.cache == map[]
    ensures Contents(Shrunk(h, size), nodes, h.total) == FileBytes(h, nodes)
  {
    assert Shrunk(h, size).cache == map[];
    forall p | 0 <= p < h.total ensures Contents(Shrunk(h, size), nodes, h.total)[p] == FileBytes(h, nodes)[p] {
      assert Stored(Shrunk(h, size), nodes, p / CHUNK_SIZE) == Stored(h, nodes, p / CHUNK_SIZE);
    }
  }

  // ── Persisting a chunk ────────────────────────────────────────────────────

  /** Chunk ci has been written to its data slot, freshly allocated if it had none. */
  ghost predicate ChunkWritten(h: Handle, h': Handle, nodes: Nodes, nodes': Nodes, ci: nat, slot: nat) {
    && 1 <= ci < |h.slotMap| && ci in h.cache
    && (h.slotMap[ci] == Some(slot) || (h.slotMap[ci] == None && slot !in nodes))
    && nodes' == nodes[slot := FileData(h.cache[ci])]
    && h'.head == h.head && h'.slotMap == h.slotMap[ci := Some(slot)]
    && (h'.cache == h.cache || h'.cache == h.cache - {ci})
    && h'.dirty == h.dirty - {ci}
  }

  /** Of a chunk just written the disk holds what the cache held; every other chunk is where it was. */
  lemma ChunkWrittenSame(h: Handle, h': Handle, nodes: Nodes, nodes': Nodes, ci: nat, slot: nat)
    requires SlotsOk(h, nodes) && ChunkWritten(h, h', nodes, nodes', ci, slot) && |h.cache[ci]| <= CHUNK_SIZE
    ensures SlotsOk(h', nodes') && Stored(h', nodes', ci) == h.cache[ci]
    ensures forall i: nat :: Chunk(h', nodes', i) == Chunk(h, nodes, i)
    ensures forall i: nat :: i != ci ==> Stored(h', nodes', i) == Stored(h, nodes, i)
  {
  }

  /** Writing a dirty chunk through to disk, and dropping it from the cache, changes nothing visible. */
  lemma ChunkWrittenCovers(h: Handle, h': Handle, nodes: Nodes, nodes': Nodes, ci: nat, slot: nat, size: nat)
    requires SlotsOk(h, nodes) && ChunkWritten(h, h', nodes, nodes', ci, slot) && |h.cache[ci]| <= CHUNK_SIZE
    requires ci in h.dirty
    ensures Covers(h', nodes', size) <==> Covers(h, nodes, size)
    ensures Contents(h', nodes', size) == Contents(h, nodes, size)
  {
    ChunkWrittenSame(h, h', nodes, nodes', ci, slot);
    hide SlotsOk;
    assert forall i :: i in h.cache && i !in h.dirty ==> i != ci && i in h'.cache && i !in h'.dirty;
    assert forall i :: i in h'.cache && i !in h'.dirty && i != ci ==> i in h.cache && i !in h.dirty;
    assert forall p: nat :: Chunk(h', nodes', p / CHUNK_SIZE) == Chunk(h, nodes, p / CHUNK_SIZE);
  }
}
