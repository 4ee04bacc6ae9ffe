/**
 Invariants of one file, open or closed: dense contents, a sound overflow chain, the slots the file
 owns, and how far the disk may lag behind a handle that has only appended.
 */
module FileState {
  import opened Wrappers
  import opened Bytes
  import opened VaultFs
  import opened Handle
  import opened IndexChain

  /** The data slots a handle refers to. */
  function DataSlots(h: Handle): set<nat> {
    set i | 0 <= i < |h.slotMap| && h.slotMap[i].Some? :: h.slotMap[i].value
  }

  /** Every slot a file owns: its head, its data slots and its index slots. */
  function Footprint(h: Handle, chain: seq<nat>): set<nat> {
    {h.head} + DataSlots(h) + SlotSet(chain)
  }

  /** What the disk records for a file whose index chain is `chain`. */
  function DiskView(nodes: Nodes, head: nat, chain: seq<nat>): Handle {
    if head in nodes && nodes[head].File? then
      Handle(head, nodes[head].totalSize, nodes[head].indexChain,
             SlotMapOf(nodes[head].dataSlots + ChainIds(nodes, chain)), map[], {}, false)
    else
      Handle(head, 0, None, [None], map[], {}, false)
  }

  /** The bytes a reader of the disk sees. */
  function DiskBytes(nodes: Nodes, head: nat, chain: seq<nat>): seq<byte> {
    FileBytes(DiskView(nodes, head, chain), nodes)
  }

  /** The size the head on disk records. */
  function RecordedSize(nodes: Nodes, head: nat): nat {
    DiskView(nodes, head, []).total
  }

  /** The head on disk records the handle's size, chain and slot map. */
  ghost predicate Synced(h: Handle, nodes: Nodes, chain: seq<nat>) {
    h.(cache := map[], dirty := {}, metaDirty := false) == DiskView(nodes, h.head, chain)
  }

  /** Invariant of an open file. Unless the next flush rewrites the head anyway, the head is up to date. */
  ghost predicate FileOk(h: Handle, nodes: Nodes, chain: seq<nat>) {
    && Dense(h, nodes)
    && IsChain(nodes, h.chain, chain)
    && (!h.metaDirty && 0 !in h.dirty ==> Synced(h, nodes, chain))
  }

  /** What an open file keeps even if some of its bytes are missing. */
  ghost predicate Linked(h: Handle, nodes: Nodes, chain: seq<nat>) {
    && SlotsOk(h, nodes) && IsChain(nodes, h.chain, chain)
    && ChunkCount(h.total) <= |h.slotMap| && KeysBelow(h, Max(1, ChunkCount(h.total)))
    && (forall i :: i in h.cache ==> |h.cache[i]| <= CHUNK_SIZE)
    && (!h.metaDirty && 0 !in h.dirty ==> Synced(h, nodes, chain))
  }

  /** With all of its bytes it is a sound file. */
  lemma LinkedFile(h: Handle, nodes: Nodes, chain: seq<nat>)
    ensures FileOk(h, nodes, chain) <==> Linked(h, nodes, chain) && Covers(h, nodes, h.total)
  {
    hide IsChain;
    hide Synced;
    hide SlotsOk;
    if FileOk(h, nodes, chain) {
      forall i | i in h.cache ensures |h.cache[i]| <= CHUNK_SIZE {
        assert h.cache[i] == Chunk(h, nodes, i);
      }
    }
  }

  lemma LinkedParts(h: Handle, nodes: Nodes, chain: seq<nat>)
    requires Linked(h, nodes, chain)
    ensures SlotsOk(h, nodes) && IsChain(nodes, h.chain, chain) && Touched(h, chain, nodes, h, chain, nodes)
    ensures forall i :: i in h.cache || i in h.dirty ==> i < |h.slotMap|
    ensures forall i :: i in h.cache ==> |h.cache[i]| <= CHUNK_SIZE
  {
    FootprintInUse(h, nodes, chain);
  }

  /** Invariant of a closed file. */
  ghost predicate DiskOk(nodes: Nodes, head: nat, chain: seq<nat>) {
    head in nodes && nodes[head].File? && FileOk(DiskView(nodes, head, chain), nodes, chain)
  }

  /** Only the file's own slots and free slots were touched; what it gave up or took is exactly the change in use. */
  ghost predicate Touched(h: Handle, chain: seq<nat>, nodes: Nodes, h': Handle, chain': seq<nat>, nodes': Nodes) {
    && (forall s :: s in nodes && s !in Footprint(h, chain) ==> s in nodes' && nodes'[s] == nodes[s])
    && nodes'.Keys == nodes.Keys - Footprint(h, chain) + Footprint(h', chain')
    && (forall s :: s in Footprint(h', chain') ==> s in Footprint(h, chain) || s !in nodes)
  }

  lemma FootprintInUse(h: Handle, nodes: Nodes, chain: seq<nat>)
    requires SlotsOk(h, nodes) && IsChain(nodes, h.chain, chain)
    ensures Footprint(h, chain) <= nodes.Keys
  {
  }

  lemma TouchedTrans(h: Handle, chain: seq<nat>, nodes: Nodes, h': Handle, chain': seq<nat>, nodes': Nodes, h'': Handle,
                     chain'': seq<nat>, nodes'': Nodes)
    requires Touched(h, chain, nodes, h', chain', nodes') && Touched(h', chain', nodes', h'', chain'', nodes'')
    ensures Touched(h, chain, nodes, h'', chain'', nodes'')
  {
  }

  /**
   Isolation: a file depends on its own slots only. Whatever else happens on the disk, its
   invariant and its bytes stay.
   */
  lemma FileFrame(h: Handle, nodes: Nodes, chain: seq<nat>, nodes': Nodes)
    requires FileOk(h, nodes, chain)
    requires forall s :: s in Footprint(h, chain) ==> s in nodes' && s in nodes && nodes'[s] == nodes[s]
    ensures FileOk(h, nodes', chain) && FileBytes(h, nodes') == FileBytes(h, nodes)
  {
    assert h.head in Footprint(h, chain);
    forall i | 0 <= i < |h.slotMap| && h.slotMap[i].Some? ensures h.slotMap[i].value in Footprint(h, chain) {
      assert h.slotMap[i].value in DataSlots(h);
    }
    forall s | s in chain ensures s in Footprint(h, chain) {
      assert s in SlotSet(chain);
    }
    ChainFrame(nodes, nodes', h.chain, chain);
    forall i: nat ensures Stored(h, nodes', i) == Stored(h, nodes, i) && Chunk(h, nodes', i) == Chunk(h, nodes, i) {
    }
    SameContents(h, nodes, h, nodes', h.total);
  }

  // ── Clean handles ─────────────────────────────────────────────────────────

  /** With nothing dirty, dropping the cache changes nothing: the disk alone holds the file. */
  lemma CleanIsOnDisk(h: Handle, nodes: Nodes)
    requires Dense(h, nodes) && h.dirty == {}
    ensures Dense(h.(cache := map[]), nodes)
    ensures FileBytes(h.(cache := map[]), nodes) == FileBytes(h, nodes)
  {
    var h' := h.(cache := map[]);
    forall i: nat
      ensures Need(i, h.total) <= |Chunk(h', nodes, i)| <= CHUNK_SIZE
      ensures Chunk(h', nodes, i)[..Need(i, h.total)] == Chunk(h, nodes, i)[..Need(i, h.total)]
    {
      assert Need(i, h.total) <= |Chunk(h, nodes, i)|;
      assert Stored(h', nodes, i) == Stored(h, nodes, i);
      StoredBound(h, nodes, i);
    }
    SameContents(h, nodes, h', nodes, h.total);
  }

  /** Flush, then reopen: a clean handle in step with the disk is what a fresh open builds, with the same bytes. */
  lemma CleanReopens(h: Handle, nodes: Nodes, chain: seq<nat>)
    requires FileOk(h, nodes, chain) && h.dirty == {} && !h.metaDirty
    ensures DiskOk(nodes, h.head, chain)
    ensures DiskBytes(nodes, h.head, chain) == FileBytes(h, nodes)
  {
    CleanIsOnDisk(h, nodes);
    assert DiskView(nodes, h.head, chain) == h.(cache := map[]);
  }

  /** The slot map and the chain of a handle are those the disk records; its size and its chunks need not be. */
  ghost predicate Recorded(h: Handle, nodes: Nodes, chain: seq<nat>) {
    var d := DiskView(nodes, h.head, chain);
    h.slotMap == d.slotMap && h.chain == d.chain
  }

  // ── Appending ─────────────────────────────────────────────────────────────

  /** The disk lags the handle only by bytes past the recorded size (no overflow chain). */
  ghost predicate Behind(h: Handle, nodes: Nodes) {
    && h.chain == None && h.head in nodes && nodes[h.head].File? && nodes[h.head].indexChain == None
    && var d := DiskView(nodes, h.head, []);
    && ChunkCount(d.total) <= |d.slotMap| && ChunkCount(d.total) <= |h.slotMap|
    && (forall i: nat :: i < ChunkCount(d.total) ==> SlotOf(h, i) == SlotOf(d, i))
    && (forall i: nat :: Need(i, d.total) <= |Chunk(h, nodes, i)| && Need(i, d.total) <= |Stored(h, nodes, i)|)
    && (forall i: nat :: Chunk(h, nodes, i)[..Need(i, d.total)] == Stored(h, nodes, i)[..Need(i, d.total)])
  }

  /** The handle has only appended since the size on disk was recorded. */
  ghost predicate Appending(h: Handle, nodes: Nodes) {
    Behind(h, nodes) && RecordedSize(nodes, h.head) <= h.total
  }

  lemma DiskLength(nodes: Nodes, head: nat)
    ensures |DiskBytes(nodes, head, [])| == RecordedSize(nodes, head)
  {
  }

  /** A clean handle without an overflow chain is where every lag starts: the disk shows all of its bytes. */
  lemma CleanIsBehind(h: Handle, nodes: Nodes, chain: seq<nat>)
    requires FileOk(h, nodes, chain) && h.dirty == {} && !h.metaDirty && h.chain == None
    ensures Appending(h, nodes) && DiskBytes(nodes, h.head, []) == FileBytes(h, nodes)
  {
    CleanReopens(h, nodes, chain);
    var d := DiskView(nodes, h.head, []);
    assert d == h.(cache := map[]);
    forall i: nat
      ensures Need(i, d.total) <= |Chunk(h, nodes, i)| && Need(i, d.total) <= |Stored(h, nodes, i)|
      ensures Chunk(h, nodes, i)[..Need(i, d.total)] == Stored(h, nodes, i)[..Need(i, d.total)]
    {
      assert Need(i, h.total) <= |Chunk(h, nodes, i)|;
    }
  }

  /** What the disk shows is the recorded prefix of what the handle shows. */
  lemma BehindShowsPrefix(h: Handle, nodes: Nodes)
    requires Appending(h, nodes)
    ensures DiskBytes(nodes, h.head, []) == FileBytes(h, nodes)[..RecordedSize(nodes, h.head)]
  {
    var d := DiskView(nodes, h.head, []);
    DiskStored(h, nodes);
    SameContents(d, nodes, h, nodes, d.total);
    assert Contents(h, nodes, d.total) == FileBytes(h, nodes)[..d.total];
  }

  lemma DiskStored(h: Handle, nodes: Nodes)
    requires Behind(h, nodes)
    ensures var d := DiskView(nodes, h.head, []);
            forall i: nat :: i < ChunkCount(d.total) ==> Chunk(d, nodes, i) == Stored(h, nodes, i)
    ensures var d := DiskView(nodes, h.head, []);
            forall i: nat :: Need(i, d.total) <= |Chunk(d, nodes, i)|
  {
    var d := DiskView(nodes, h.head, []);
    forall i: nat | i < ChunkCount(d.total) ensures Chunk(d, nodes, i) == Stored(h, nodes, i) {
      assert SlotOf(h, i) == SlotOf(d, i);
    }
    forall i: nat ensures Need(i, d.total) <= |Chunk(d, nodes, i)| {
      NeedFacts(i, d.total);
      assert Need(i, d.total) <= |Stored(h, nodes, i)|;
    }
  }

  /** Writing a chunk through to its data slot is invisible to a reader of the disk. */
  lemma ChunkWrittenInvisible(h: Handle, h': Handle, nodes: Nodes, nodes': Nodes, ci: nat, slot: nat)
    requires SlotsOk(h, nodes) && Behind(h, nodes) && ChunkWritten(h, h', nodes, nodes', ci, slot)
    requires h'.chain == h.chain
    ensures Behind(h', nodes')
    ensures DiskBytes(nodes', h.head, []) == DiskBytes(nodes, h.head, [])
  {
    var d, d' := DiskView(nodes, h.head, []), DiskView(nodes', h.head, []);
    assert h.cache[ci] == Chunk(h, nodes, ci);
    assert d' == d;
    forall i: nat
      ensures i != ci ==> Stored(h', nodes', i) == Stored(h, nodes, i)
      ensures Chunk(h', nodes', i) == Chunk(h, nodes, i)
      ensures Need(i, d.total) <= |Stored(h', nodes', i)|
      ensures Chunk(h', nodes', i)[..Need(i, d.total)] == Stored(h', nodes', i)[..Need(i, d.total)]
    {
      assert Need(i, d.total) <= |Chunk(h, nodes, i)|;
      if i == ci { assert Stored(h', nodes', ci) == h.cache[ci]; }
    }
    forall i: nat | i < ChunkCount(d.total) ensures SlotOf(h', i) == SlotOf(d, i) {
      assert SlotOf(h, i) == SlotOf(d, i);
      if i == ci { assert d.slotMap[i].Some?; }
    }
    DiskStored(h, nodes);
    DiskStored(h', nodes');
    forall i: nat | i < ChunkCount(d.total)
      ensures Chunk(d, nodes, i)[..Need(i, d.total)] == Chunk(d', nodes', i)[..Need(i, d.total)]
    {
      if i == ci {
        assert Chunk(h, nodes, i)[..Need(i, d.total)] == Stored(h, nodes, i)[..Need(i, d.total)];
      }
    }
    SameContents(d, nodes, d', nodes', d.total);
  }

  /** A patch at or past the recorded size leaves the recorded bytes alone. */
  lemma PatchStaysBehind(h: Handle, h': Handle, nodes: Nodes, pos: nat, d: seq<byte>)
    requires Behind(h, nodes) && Patched(h, h', pos, d) && nodes[h.head].totalSize <= pos && h'.chain == h.chain
    ensures Behind(h', nodes)
  {
    var ci, off := pos / CHUNK_SIZE, pos % CHUNK_SIZE;
    var k := nodes[h.head].totalSize;
    assert h.cache[ci] == Chunk(h, nodes, ci);
    PositionInChunk(pos, k);
    forall i: nat
      ensures Stored(h', nodes, i) == Stored(h, nodes, i)
      ensures Need(i, k) <= |Chunk(h', nodes, i)|
      ensures Chunk(h', nodes, i)[..Need(i, k)] == Stored(h', nodes, i)[..Need(i, k)]
    {
      assert Chunk(h, nodes, i)[..Need(i, k)] == Stored(h, nodes, i)[..Need(i, k)];
      assert Need(i, k) <= |Chunk(h, nodes, i)| && Need(i, k) <= |Stored(h, nodes, i)|;
      if i == ci {
        assert Need(i, k) <= off;
        assert Patch(h.cache[ci], off, d)[..Need(i, k)] == h.cache[ci][..Need(i, k)];
      }
    }
  }
}
