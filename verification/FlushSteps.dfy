/**
 The value-level steps of `flush_fh` (vnmcore/src/fs/fuse.rs): chunks written, excess slots freed,
 the head rewritten with its slot ids and overflow chain.
 */
module FlushSteps {
  import opened Wrappers
  import opened Bytes
  import opened VaultFs
  import opened Handle
  import opened IndexChain
  import opened FileState

  // ── Step 1: dirty chunks ──────────────────────────────────────────────────

  /** A dirty mark on a chunk that is not in memory protects nothing. */
  lemma ForgetUncached(h: Handle, nodes: Nodes, chain: seq<nat>, ci: nat)
    requires FileOk(h, nodes, chain) && ci !in h.cache && ci >= 1
    ensures FileOk(h.(dirty := h.dirty - {ci}), nodes, chain)
    ensures FileBytes(h.(dirty := h.dirty - {ci}), nodes) == FileBytes(h, nodes)
    ensures Behind(h, nodes) ==> Behind(h.(dirty := h.dirty - {ci}), nodes)
  {
    var h' := h.(dirty := h.dirty - {ci});
    forall i: nat ensures Chunk(h', nodes, i) == Chunk(h, nodes, i) && Stored(h', nodes, i) == Stored(h, nodes, i) {
    }
    SameContents(h, nodes, h', nodes, h.total);
  }

  // ── Step 2: excess slots ──────────────────────────────────────────────────

  /** The slots of entries n up to m. */
  function SlotsBetween(h: Handle, n: nat, m: nat): set<nat>
    requires m <= |h.slotMap|
  {
    set i | n <= i < m && h.slotMap[i].Some? :: h.slotMap[i].value
  }

  /** The slots of entries n and up. */
  function TailSlots(h: Handle, n: nat): set<nat> {
    SlotsBetween(h, n, |h.slotMap|)
  }

  lemma SlotsBetweenNext(h: Handle, nodes: Nodes, n: nat, m: nat)
    requires SlotsOk(h, nodes) && n <= m < |h.slotMap|
    ensures SlotsBetween(h, n, m + 1) ==
              SlotsBetween(h, n, m) + (if h.slotMap[m].Some? then {h.slotMap[m].value} else {})
    ensures h.slotMap[m].Some? ==> h.slotMap[m].value in nodes && h.slotMap[m].value !in SlotsBetween(h, n, m)
  {
    forall s | s in SlotsBetween(h, n, m) ensures s in SlotsBetween(h, n, m + 1) {
    }
    if h.slotMap[m].Some? { assert h.slotMap[m].value in SlotsBetween(h, n, m + 1); }
  }

  /** Slot map cut to n entries, the freed slots gone from the disk. */
  ghost predicate Drained(h: Handle, h': Handle, nodes: Nodes, nodes': Nodes, n: nat) {
    && n == Max(ChunkCount(h.total), 1) <= |h.slotMap|
    && h' == h.(slotMap := h.slotMap[..n], metaDirty := h'.metaDirty)
    && (h'.metaDirty <==> h.metaDirty || n < |h.slotMap|)
    && nodes' == nodes - TailSlots(h, n)
  }

  lemma DrainedSlots(h: Handle, h': Handle, nodes: Nodes, nodes': Nodes, n: nat)
    requires SlotsOk(h, nodes) && Drained(h, h', nodes, nodes', n)
    ensures DataSlots(h) == DataSlots(h') + TailSlots(h, n) && DataSlots(h') !! TailSlots(h, n)
  {
    forall s | s in DataSlots(h) ensures s in DataSlots(h') + TailSlots(h, n) {
      var i :| 0 <= i < |h.slotMap| && h.slotMap[i] == Some(s);
      if i < n { assert h'.slotMap[i] == Some(s); }
    }
    forall s | s in DataSlots(h') ensures s in DataSlots(h) && s !in TailSlots(h, n) {
      var i :| 0 <= i < n && h'.slotMap[i] == Some(s);
      assert h.slotMap[i] == Some(s);
    }
  }

  lemma DrainKeeps(h: Handle, h': Handle, nodes: Nodes, nodes': Nodes, chain: seq<nat>, n: nat)
    requires FileOk(h, nodes, chain) && Drained(h, h', nodes, nodes', n)
    ensures FileOk(h', nodes', chain) && FileBytes(h', nodes') == FileBytes(h, nodes)
    ensures Touched(h, chain, nodes, h', chain, nodes')
  {
    DrainedSlots(h, h', nodes, nodes', n);
    FootprintInUse(h, nodes, chain);
    DrainCovers(h, h', nodes, nodes', n);
    forall s | s in chain ensures s in nodes' && nodes'[s] == nodes[s] {
    }
    ChainFrame(nodes, nodes', h.chain, chain);
    if !h'.metaDirty { assert TailSlots(h, n) == {} && h' == h; }
  }

  lemma DrainCovers(h: Handle, h': Handle, nodes: Nodes, nodes': Nodes, n: nat)
    requires Dense(h, nodes) && Drained(h, h', nodes, nodes', n)
    ensures Dense(h', nodes') && FileBytes(h', nodes') == FileBytes(h, nodes)
  {
    DrainedSlots(h, h', nodes, nodes', n);
    forall i | 0 <= i < |h'.slotMap| && h'.slotMap[i].Some?
      ensures h'.slotMap[i].value in nodes' && nodes'[h'.slotMap[i].value] == nodes[h'.slotMap[i].value]
    {
      assert h'.slotMap[i] == h.slotMap[i] && h'.slotMap[i].value in DataSlots(h');
    }
    assert h.head in nodes' && nodes'[h.head] == nodes[h.head];
    forall i: nat
      ensures i < n ==> Stored(h', nodes', i) == Stored(h, nodes, i) && Chunk(h', nodes', i) == Chunk(h, nodes, i)
      ensures i >= n ==> Need(i, h.total) == 0 && i !in h'.cache && Stored(h', nodes', i) == []
      ensures Need(i, h.total) <= |Chunk(h', nodes', i)| <= CHUNK_SIZE
    {
      NeedFacts(i, h.total);
      assert Need(i, h.total) <= |Chunk(h, nodes, i)| <= CHUNK_SIZE;
    }
    SameContents(h, nodes, h', nodes', h.total);
  }

  /** Freeing the slot of a chunk past the recorded size is invisible to a reader of the disk. */
  lemma FreePastEndInvisible(h: Handle, nodes: Nodes, nodes': Nodes, j: nat)
    requires Behind(h, nodes)
    requires j < |h.slotMap| && h.slotMap[j].Some? && ChunkCount(RecordedSize(nodes, h.head)) <= j
    requires h.slotMap[j].value != h.head
    requires forall i :: 0 <= i < |h.slotMap| && i != j ==> h.slotMap[i] != h.slotMap[j]
    requires nodes' == nodes - {h.slotMap[j].value}
    requires forall i: nat :: j <= i ==> i !in h.cache
    ensures Behind(h, nodes') && DiskBytes(nodes', h.head, []) == DiskBytes(nodes, h.head, [])
    ensures RecordedSize(nodes', h.head) == RecordedSize(nodes, h.head)
  {
    var d := DiskView(nodes, h.head, []);
    assert DiskView(nodes', h.head, []) == d;
    forall i: nat
      ensures i != j ==> Stored(h, nodes', i) == Stored(h, nodes, i) && Chunk(h, nodes', i) == Chunk(h, nodes, i)
      ensures i == j ==> Need(i, d.total) == 0
      ensures Need(i, d.total) <= |Chunk(h, nodes', i)| && Need(i, d.total) <= |Stored(h, nodes', i)|
      ensures Chunk(h, nodes', i)[..Need(i, d.total)] == Stored(h, nodes', i)[..Need(i, d.total)]
    {
      NeedFacts(i, d.total);
      assert Need(i, d.total) <= |Chunk(h, nodes, i)| && Need(i, d.total) <= |Stored(h, nodes, i)|;
      assert Chunk(h, nodes, i)[..Need(i, d.total)] == Stored(h, nodes, i)[..Need(i, d.total)];
    }
    DiskStored(h, nodes);
    DiskStored(h, nodes');
    SameContents(d, nodes, d, nodes', d.total);
  }

  /** Cutting the slot map past the recorded size. */
  lemma CutBehind(h: Handle, h': Handle, nodes: Nodes, n: nat)
    requires Behind(h, nodes) && n <= |h.slotMap| && ChunkCount(RecordedSize(nodes, h.head)) <= n && n >= 1
    requires h' == h.(slotMap := h.slotMap[..n], metaDirty := h'.metaDirty)
    ensures Behind(h', nodes)
  {
    var k := RecordedSize(nodes, h.head);
    forall i: nat
      ensures i < n ==> SlotOf(h', i) == SlotOf(h, i)
      ensures Need(i, k) <= |Chunk(h', nodes, i)| && Need(i, k) <= |Stored(h', nodes, i)|
      ensures Chunk(h', nodes, i)[..Need(i, k)] == Stored(h', nodes, i)[..Need(i, k)]
    {
      NeedFacts(i, k);
      assert Need(i, k) <= |Chunk(h, nodes, i)| && Need(i, k) <= |Stored(h, nodes, i)|;
      assert Chunk(h, nodes, i)[..Need(i, k)] == Stored(h, nodes, i)[..Need(i, k)];
    }
  }

  /** The reader's view survives additions to the disk. */
  lemma ExtendsInvisible(h: Handle, nodes: Nodes, nodes': Nodes)
    requires Behind(h, nodes) && Extends(nodes', nodes)
    ensures DiskBytes(nodes', h.head, []) == DiskBytes(nodes, h.head, [])
  {
    var d := DiskView(nodes, h.head, []);
    assert DiskView(nodes', h.head, []) == d;
    DiskStored(h, nodes);
    forall i: nat
      ensures Need(i, d.total) <= |Chunk(d, nodes', i)|
      ensures i < ChunkCount(d.total) ==> Chunk(d, nodes', i) == Chunk(d, nodes, i)
    {
      NeedFacts(i, d.total);
      assert Need(i, d.total) <= |Chunk(d, nodes, i)|;
    }
    SameContents(d, nodes, d, nodes', d.total);
  }

  // ── Step 3: the head ──────────────────────────────────────────────────────

  /** The allocated ids of a stretch of slot map, in order: holes are dropped. */
  function Allocated(m: seq<Option<nat>>): (ids: seq<nat>)
    ensures |ids| <= |m|
  {
    if m == [] then []
    else (if m[0].Some? then [m[0].value] else []) + Allocated(m[1..])
  }

  lemma {:induction false} AllocatedAppend(m: seq<Option<nat>>, x: Option<nat>)
    ensures Allocated(m + [x]) == Allocated(m) + if x.Some? then [x.value] else []
  {
    if m == [] {
      assert [x][1..] == [];
    } else {
      AllocatedAppend(m[1..], x);
      assert (m + [x])[1..] == m[1..] + [x];
    }
  }

  /** Recording the allocated ids loses no position exactly when there is no hole. */
  lemma {:induction false} AllocatedKeepsPositions(m: seq<Option<nat>>)
    ensures SlotMapOf(Allocated(m)) == [None] + m <==> forall i :: 0 <= i < |m| ==> m[i].Some?
  {
    if m != [] {
      AllocatedKeepsPositions(m[1..]);
      var a, b := Allocated(m), Allocated(m[1..]);
      if m[0].Some? {
        assert a == [m[0].value] + b;
        if SlotMapOf(a) == [None] + m {
          forall i | 0 <= i < |m[1..]| ensures SlotMapOf(b)[1 + i] == m[1..][i] {
            assert SlotMapOf(a)[2 + i] == m[1 + i];
          }
          assert |SlotMapOf(a)| == |[None] + m|;
          assert SlotMapOf(b) == [None] + m[1..];
        }
        if forall i :: 0 <= i < |m| ==> m[i].Some? {
          assert forall i :: 0 <= i < |m[1..]| ==> m[1..][i] == m[i + 1];
          forall i | 0 <= i < |m| ensures SlotMapOf(a)[1 + i] == m[i] {
            if i > 0 { assert SlotMapOf(b)[i] == m[1..][i - 1]; }
          }
          assert SlotMapOf(a) == [None] + m;
        }
        assert (forall i :: 0 <= i < |m| ==> m[i].Some?) <== SlotMapOf(a) == [None] + m by {
          assert forall i :: 1 <= i < |m| ==> m[i] == m[1..][i - 1];
        }
      } else {
        assert |SlotMapOf(a)| < |[None] + m|;
      }
    }
  }

  /** Once only chunk 0 may be dirty, every other chunk of the file has a slot. */
  lemma NoHoles(h: Handle, nodes: Nodes, chain: seq<nat>)
    requires FileOk(h, nodes, chain) && h.dirty <= {0}
    ensures forall i :: 1 <= i < ChunkCount(h.total) ==> h.slotMap[i].Some?
  {
    forall i | 1 <= i < ChunkCount(h.total) ensures h.slotMap[i].Some? {
      NeedFacts(i, h.total);
      assert Need(i, h.total) <= |Chunk(h, nodes, i)|;
    }
  }

  /** The inline data written into the head. */
  function HeadChunk(h: Handle, nodes: Nodes): seq<byte> {
    if 0 in h.cache then
      (if ChunkActualSize(0, h.total).Some? then Truncate(h.cache[0], ChunkActualSize(0, h.total).value)
       else h.cache[0])
    else HeadData(nodes, h.head)
  }

  /** The ids kept in the head, and those that spill into the overflow chain. */
  function Direct(ids: seq<nat>): seq<nat> {
    if |ids| <= MAX_DIRECT_SLOTS then ids else ids[..MAX_DIRECT_SLOTS]
  }

  function Overflow(ids: seq<nat>): seq<nat> {
    if |ids| <= MAX_DIRECT_SLOTS then [] else ids[MAX_DIRECT_SLOTS..]
  }

  /** The head that a flush writes. */
  function NewHead(h: Handle, nodes: Nodes, ids: seq<nat>, chain: Option<nat>): Node {
    File(h.total, Direct(ids), chain, HeadChunk(h, nodes))
  }

  /** The head has been rewritten over `mid`, the disk after the index chain was rebuilt. */
  ghost predicate Rewritten(h: Handle, h': Handle, nodes: Nodes, mid: Nodes, nodes': Nodes) {
    && |h.slotMap| >= 1
    && (forall s :: s in {h.head} + DataSlots(h) ==> s in nodes && s in mid && mid[s] == nodes[s])
    && nodes' == mid[h.head := NewHead(h, nodes, Allocated(h.slotMap[1..]), h'.chain)]
    && h' == h.(chain := h'.chain, dirty := {}, metaDirty := false)
  }

  /** After that nothing is dirty any more, and the disk is in step with the handle. */
  lemma HeadWritten(h: Handle, h': Handle, nodes: Nodes, mid: Nodes, nodes': Nodes, chain: seq<nat>, chain': seq<nat>)
    requires FileOk(h, nodes, chain) && h.dirty <= {0} && |h.slotMap| == Max(ChunkCount(h.total), 1)
    requires Rewritten(h, h', nodes, mid, nodes') && IsChain(mid, h'.chain, chain')
    requires ChainIds(mid, chain') == Overflow(Allocated(h.slotMap[1..]))
    ensures FileOk(h', nodes', chain') && FileBytes(h', nodes') == FileBytes(h, nodes)
  {
    HeadCovers(h, h', nodes, mid, nodes', chain);
    ChainFrame(mid, nodes', h'.chain, chain');
    NoHoles(h, nodes, chain);
    HeadSynced(h, h', nodes, nodes', chain');
  }

  lemma HeadSynced(h: Handle, h': Handle, nodes: Nodes, nodes': Nodes, chain': seq<nat>)
    requires |h.slotMap| >= 1 && h.slotMap[0] == None && forall i :: 1 <= i < |h.slotMap| ==> h.slotMap[i].Some?
    requires h.head in nodes' && nodes'[h.head] == NewHead(h, nodes, Allocated(h.slotMap[1..]), h'.chain)
    requires h' == h.(chain := h'.chain, dirty := {}, metaDirty := false)
    requires ChainIds(nodes', chain') == Overflow(Allocated(h.slotMap[1..]))
    ensures Synced(h', nodes', chain')
  {
    var ids := Allocated(h.slotMap[1..]);
    AllocatedKeepsPositions(h.slotMap[1..]);
    assert forall i :: 0 <= i < |h.slotMap[1..]| ==> h.slotMap[1..][i] == h.slotMap[i + 1];
    assert h.slotMap == [None] + h.slotMap[1..];
    assert ids == Direct(ids) + Overflow(ids);
  }

  lemma HeadCovers(h: Handle, h': Handle, nodes: Nodes, mid: Nodes, nodes': Nodes, chain: seq<nat>)
    requires FileOk(h, nodes, chain) && h.dirty <= {0} && Rewritten(h, h', nodes, mid, nodes')
    ensures Dense(h', nodes') && FileBytes(h', nodes') == FileBytes(h, nodes)
  {
    HeadChunkCovers(h, nodes, chain);
    forall i | 0 <= i < |h.slotMap| && h.slotMap[i].Some?
      ensures h.slotMap[i].value in nodes' && nodes'[h.slotMap[i].value] == nodes[h.slotMap[i].value]
    {
      assert h.slotMap[i].value in DataSlots(h);
    }
    forall i: nat
      ensures i > 0 ==> Stored(h', nodes', i) == Stored(h, nodes, i) && Chunk(h', nodes', i) == Chunk(h, nodes, i)
      ensures Stored(h', nodes', 0) == HeadChunk(h, nodes)
      ensures Need(i, h.total) <= |Chunk(h', nodes', i)| <= CHUNK_SIZE
      ensures Chunk(h', nodes', i)[..Need(i, h.total)] == Chunk(h, nodes, i)[..Need(i, h.total)]
    {
      assert Need(i, h.total) <= |Chunk(h, nodes, i)| <= CHUNK_SIZE;
    }
    SameContents(h, nodes, h', nodes', h.total);
  }

  /** The new inline data holds what the file needs of chunk 0. */
  lemma HeadChunkCovers(h: Handle, nodes: Nodes, chain: seq<nat>)
    requires FileOk(h, nodes, chain)
    ensures Need(0, h.total) <= |HeadChunk(h, nodes)| <= CHUNK_SIZE
    ensures HeadChunk(h, nodes)[..Need(0, h.total)] == Chunk(h, nodes, 0)[..Need(0, h.total)]
  {
    assert Need(0, h.total) <= |Chunk(h, nodes, 0)| <= CHUNK_SIZE;
  }

  /** The slot map cut to the chunks of the file. */
  function Kept(h: Handle): Handle {
    var n := Max(ChunkCount(h.total), 1);
    if n < |h.slotMap| then h.(slotMap := h.slotMap[..n]) else h
  }

  /** The continuation ids a flush records. */
  function KeptIds(h: Handle): seq<nat> {
    if Kept(h).slotMap == [] then [] else Allocated(Kept(h).slotMap[1..])
  }

  /** The disk after the excess slots were freed and the head rewritten, without an overflow chain. */
  function FinishedNodes(h: Handle, nodes: Nodes): Nodes {
    var n := Max(ChunkCount(h.total), 1);
    var drained := nodes - TailSlots(h, n);
    if h.metaDirty || 0 in h.dirty || n < |h.slotMap| then
      drained[h.head := NewHead(h, drained, KeptIds(h), None)]
    else nodes
  }

  /** What a flush without overflow chain makes of the disk when every dirty chunk is inline or not in memory. */
  function FlushedNodes(h: Handle, nodes: Nodes): Nodes {
    if h.dirty == {} && !h.metaDirty then nodes else FinishedNodes(h, nodes)
  }

  lemma HeadAnyDirty(h: Handle, h': Handle, nodes: Nodes, ids: seq<nat>, chain: Option<nat>)
    requires h'.head == h.head && h'.total == h.total && h'.cache == h.cache
    ensures NewHead(h', nodes, ids, chain) == NewHead(h, nodes, ids, chain)
    ensures HeadChunk(h', nodes) == HeadChunk(h, nodes)
  {
  }

  /** Steps 2 and 3 together write exactly `FinishedNodes`. */
  lemma Finished(h: Handle, h2: Handle, nodes: Nodes, nodes2: Nodes, nodes3: Nodes, d: set<nat>)
    requires d == h.dirty * {0} && |h.slotMap| >= 1 && SlotsOk(h.(dirty := d), nodes)
    requires Drained(h.(dirty := d), h2.(dirty := d), nodes, nodes2, |h2.slotMap|) && h2.dirty == h.dirty
    requires if h2.metaDirty || 0 in h2.dirty then
               nodes3 == (nodes2 - SlotSet([]))[h.head := NewHead(h2, nodes2, Allocated(h2.slotMap[1..]), None)]
             else nodes3 == nodes2
    ensures nodes3 == FinishedNodes(h, nodes) && KeptIds(h) == Allocated(h2.slotMap[1..])
  {
    hide Allocated;
    hide HeadChunk;
    var n := |h2.slotMap|;
    SameTail(h, h.(dirty := d), n);
    assert nodes2 - SlotSet([]) == nodes2;
    assert Kept(h).slotMap == h2.slotMap;
    HeadAnyDirty(h2, h, nodes2, KeptIds(h), None);
    if n == |h.slotMap| { assert TailSlots(h, n) == {} && nodes2 == nodes; }
  }

  lemma SameTail(h: Handle, h': Handle, n: nat)
    requires h'.slotMap == h.slotMap
    ensures TailSlots(h', n) == TailSlots(h, n)
  {
  }

  // ── Bookkeeping ───────────────────────────────────────────────────────────

  lemma TouchedAnyDirty(h0: Handle, nodes0: Nodes, h: Handle, h': Handle, nodes: Nodes, chain0: seq<nat>,
                        chain: seq<nat>)
    requires Touched(h0, chain0, nodes0, h, chain, nodes)
    requires h'.head == h.head && h'.slotMap == h.slotMap
    ensures Touched(h0, chain0, nodes0, h', chain, nodes)
  {
    assert DataSlots(h') == DataSlots(h);
  }

  /** What lies outside the file stays, also when the last step gave up half-way. */
  lemma StillOutside(h: Handle, chain: seq<nat>, nodes: Nodes, g: Handle, mid: Nodes, nodes': Nodes)
    requires Touched(h, chain, nodes, g, chain, mid)
    requires forall s :: s in mid && s !in Footprint(g, chain) ==> s in nodes' && nodes'[s] == mid[s]
    ensures forall s :: s in nodes && s !in Footprint(h, chain) ==> s in nodes' && nodes'[s] == nodes[s]
  {
  }

  /** The overflow chain has been rebuilt: the old chain's slots are gone, the new one's are there. */
  ghost predicate Rebuilt(nodes: Nodes, mid: Nodes, chain: seq<nat>, first': Option<nat>, chain': seq<nat>,
                          ids: seq<nat>) {
    && IsChain(mid, first', chain') && ChainIds(mid, chain') == Overflow(ids)
    && mid.Keys == nodes.Keys - SlotSet(chain) + SlotSet(chain')
    && (forall s :: s in chain' ==> s !in nodes || s in chain)
    && (forall s :: s in nodes && s !in SlotSet(chain) ==> s in mid && mid[s] == nodes[s])
  }

  /** Step 3 as a whole. */
  lemma HeadDone(h: Handle, h': Handle, nodes: Nodes, mid: Nodes, nodes': Nodes, chain: seq<nat>, chain': seq<nat>)
    requires FileOk(h, nodes, chain) && h.dirty <= {0} && |h.slotMap| == Max(ChunkCount(h.total), 1)
    requires Rebuilt(nodes, mid, chain, h'.chain, chain', Allocated(h.slotMap[1..]))
    requires nodes' == mid[h.head := NewHead(h, nodes, Allocated(h.slotMap[1..]), h'.chain)]
    requires h' == h.(chain := h'.chain, dirty := {}, metaDirty := false)
    ensures FileOk(h', nodes', chain') && FileBytes(h', nodes') == FileBytes(h, nodes)
    ensures Touched(h, chain, nodes, h', chain', nodes')
  {
    OutsideChain(h, nodes, chain);
    assert Rewritten(h, h', nodes, mid, nodes');
    HeadWritten(h, h', nodes, mid, nodes', chain, chain');
    FootprintInUse(h, nodes, chain);
    assert DataSlots(h') == DataSlots(h);
    assert h.head in Footprint(h, chain);
  }

  lemma OutsideChain(h: Handle, nodes: Nodes, chain: seq<nat>)
    requires FileOk(h, nodes, chain)
    ensures forall s :: s in {h.head} + DataSlots(h) ==> s in nodes && s !in SlotSet(chain)
  {
    forall s | s in {h.head} + DataSlots(h) ensures s in nodes && s !in SlotSet(chain) {
      assert s in chain ==> nodes[s].FileIndex?;
    }
  }

  /** Giving up before the head is written touches at most the old chain and the head. */
  lemma HeadHalfWay(h: Handle, nodes: Nodes, mid: Nodes, nodes': Nodes, chain: seq<nat>)
    requires forall s :: s in nodes && s !in SlotSet(chain) ==> s in mid && mid[s] == nodes[s]
    requires forall s :: s in mid && s != h.head ==> s in nodes' && nodes'[s] == mid[s]
    ensures forall s :: s in nodes && s !in Footprint(h, chain) ==> s in nodes' && nodes'[s] == nodes[s]
  {
  }
}
