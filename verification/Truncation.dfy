/**
 Resizing a file that has no open handle (`op_setattr_size` in vnmcore/src/fs/fuse.rs), and the
 agreement of shrinking there with shrinking through a fresh handle followed by a flush.
 */
module Truncation {
  import opened Wrappers
  import opened Bytes
  import opened VaultFs
  import opened Handle
  import opened IndexChain
  import opened FileState
  import opened FlushSteps
  import opened OpenFiles
  import opened Fs
  import opened FsState
  import opened DirSteps

  /** Continuation chunks of a file of this size. */
  function ContCount(size: nat): nat {
    if ChunkCount(size) == 0 then 0 else ChunkCount(size) - 1
  }

  /** How many listed continuation ids a head keeps at this size. */
  function Cut(ids: seq<nat>, size: nat): (n: nat)
    ensures n <= |ids|
  {
    Min(ContCount(size), |ids|)
  }

  function IdsOf(nodes: Nodes, f: nat): seq<nat> {
    if f in nodes && nodes[f].File? then nodes[f].dataSlots else []
  }

  /** The head as rewritten: the kept ids, no index chain, the inline data clamped. */
  function CutHead(nodes: Nodes, f: nat, size: nat): Node {
    File(size, IdsOf(nodes, f)[..Cut(IdsOf(nodes, f), size)], None,
         if ChunkCount(size) == 0 then [] else Truncate(HeadData(nodes, f), size))
  }

  /** The head that a new size asks for: cut, or with only the size changed. */
  function ResizedHead(nodes: Nodes, f: nat, size: nat): Node {
    if f in nodes && nodes[f].File? then
      if size < nodes[f].totalSize then CutHead(nodes, f, size) else nodes[f].(totalSize := size)
    else NewFile()
  }

  /** The slots given up: the excess listed ids and the index chain. */
  function Dropped(nodes: Nodes, f: nat, chain: seq<nat>, size: nat): set<nat> {
    SlotSet(IdsOf(nodes, f)[Cut(IdsOf(nodes, f), size)..]) + SlotSet(chain)
  }

  function TruncatedNodes(nodes: Nodes, f: nat, chain: seq<nat>, size: nat): Nodes {
    (nodes - Dropped(nodes, f, chain, size))[f := CutHead(nodes, f, size)]
  }

  /** The file as recorded after truncation. */
  function TruncatedView(nodes: Nodes, f: nat, chain: seq<nat>, size: nat): FileView {
    FileView(DiskView(TruncatedNodes(nodes, f, chain, size), f, []), [])
  }

  lemma ViewIsCut(nodes: Nodes, f: nat, chain: seq<nat>, size: nat)
    ensures TruncatedView(nodes, f, chain, size).h ==
              Handle(f, size, None, SlotMapOf(IdsOf(nodes, f)[..Cut(IdsOf(nodes, f), size)]), map[], {}, false)
  {
    var ids := IdsOf(nodes, f)[..Cut(IdsOf(nodes, f), size)];
    assert ids + [] == ids;
  }

  /**
   The truncated file is dense exactly when the head itself lists every chunk it still needs: chunks
   listed in the index chain are lost.
   */
  lemma TruncatedIsDense(nodes: Nodes, f: nat, chain: seq<nat>, size: nat)
    requires DiskOk(nodes, f, chain) && size < nodes[f].totalSize
    ensures DiskOk(TruncatedNodes(nodes, f, chain, size), f, []) <==> ContCount(size) <= |nodes[f].dataSlots|
    ensures ContCount(size) <= |nodes[f].dataSlots| ==>
              DiskBytes(TruncatedNodes(nodes, f, chain, size), f, []) == DiskBytes(nodes, f, chain)[..size]
  {
    hide Dropped;
    hide CutHead;
    var nodes' := TruncatedNodes(nodes, f, chain, size);
    var d' := TruncatedView(nodes, f, chain, size).h;
    ViewIsCut(nodes, f, chain, size);
    HeadIsCut(nodes, f, size);
    if ContCount(size) <= |nodes[f].dataSlots| {
      KeptChunks(nodes, f, chain, size);
      TruncatedCovers(nodes, f, chain, size);
    } else {
      assert |d'.slotMap| < ChunkCount(size);
    }
  }

  lemma HeadIsCut(nodes: Nodes, f: nat, size: nat)
    ensures CutHead(nodes, f, size).File? && CutHead(nodes, f, size).totalSize == size
    ensures CutHead(nodes, f, size).indexChain == None
  {
  }

  /** The head as the program computes it. */
  lemma CutHeadIs(nodes: Nodes, f: nat, size: nat)
    requires f in nodes && nodes[f].File?
    ensures var fb := nodes[f];
            var n := if size == 0 then 0 else (size + CHUNK_SIZE - 1) / CHUNK_SIZE;
            var cut := if n == 0 then 0 else n - 1;
            && Cut(fb.dataSlots, size) == Min(cut, |fb.dataSlots|)
            && CutHead(nodes, f, size) ==
                 File(size, fb.dataSlots[..Min(cut, |fb.dataSlots|)], None,
                      if n == 0 then [] else Truncate(fb.data, size))
  {
  }

  /** The kept data slots survive, with distinct ids. */
  lemma KeptChunks(nodes: Nodes, f: nat, chain: seq<nat>, size: nat)
    requires DiskOk(nodes, f, chain)
    ensures var ids, n := nodes[f].dataSlots, Cut(nodes[f].dataSlots, size);
            && (forall i :: 0 <= i < |ids| ==> DiskView(nodes, f, chain).slotMap[i + 1] == Some(ids[i]))
            && (forall i, j :: 0 <= i < j < |ids| ==> ids[i] != ids[j])
            && (forall i :: 0 <= i < |ids| ==>
                ids[i] != f && ids[i] in nodes && nodes[ids[i]].FileData? && |nodes[ids[i]].bytes| <= CHUNK_SIZE)
            && (forall i :: 0 <= i < n ==> ids[i] !in Dropped(nodes, f, chain, size))
            && f !in Dropped(nodes, f, chain, size)
  {
    var h := DiskView(nodes, f, chain);
    var ids, over := nodes[f].dataSlots, ChainIds(nodes, chain);
    SavedSlots(h, nodes, chain);
    TwoLists(h, nodes, ids, over);
    forall i | 0 <= i < |ids| ensures h.slotMap[i + 1] == Some(ids[i]) {
      assert (ids + over)[i] == ids[i];
    }
  }

  lemma TruncatedCovers(nodes: Nodes, f: nat, chain: seq<nat>, size: nat)
    requires DiskOk(nodes, f, chain) && size < nodes[f].totalSize && ContCount(size) <= |nodes[f].dataSlots|
    ensures DiskOk(TruncatedNodes(nodes, f, chain, size), f, [])
    ensures DiskBytes(TruncatedNodes(nodes, f, chain, size), f, []) == DiskBytes(nodes, f, chain)[..size]
  {
    hide Dropped;
    hide ChainIds;
    hide Chunk;
    var nodes' := TruncatedNodes(nodes, f, chain, size);
    var d, d' := DiskView(nodes, f, chain), TruncatedView(nodes, f, chain, size).h;
    ViewIsCut(nodes, f, chain, size);
    KeptChunks(nodes, f, chain, size);
    forall i: nat
      ensures Need(i, size) <= |Chunk(d', nodes', i)| <= CHUNK_SIZE
      ensures Need(i, size) <= |Chunk(d, nodes, i)|
      ensures Chunk(d', nodes', i)[..Need(i, size)] == Chunk(d, nodes, i)[..Need(i, size)]
    {
      TruncatedChunk(nodes, f, chain, size, i);
    }
    SameContents(d, nodes, d', nodes', size);
    assert Contents(d, nodes, size) == FileBytes(d, nodes)[..size];
    ChainNil(nodes');
  }

  /** A kept chunk is the same one before and after. */
  lemma KeptChunk(nodes: Nodes, f: nat, chain: seq<nat>, size: nat, i: nat)
    requires DiskOk(nodes, f, chain) && 1 <= i < ChunkCount(size) && ContCount(size) <= |nodes[f].dataSlots|
    ensures var nodes' := TruncatedNodes(nodes, f, chain, size);
            Chunk(TruncatedView(nodes, f, chain, size).h, nodes', i) == Chunk(DiskView(nodes, f, chain), nodes, i)
  {
    hide Dropped;
    hide FileOk;
    hide Chunk;
    ViewIsCut(nodes, f, chain, size);
    KeptChunks(nodes, f, chain, size);
    SameSlot(DiskView(nodes, f, chain), nodes, TruncatedView(nodes, f, chain, size).h,
             TruncatedNodes(nodes, f, chain, size), i, nodes[f].dataSlots[i - 1]);
  }

  lemma SameSlot(h: Handle, nodes: Nodes, h': Handle, nodes': Nodes, i: nat, x: nat)
    requires h.cache == map[] && h'.cache == map[] && SlotOf(h, i) == Some(x) && SlotOf(h', i) == Some(x)
    requires x in nodes && x in nodes' && nodes'[x] == nodes[x]
    ensures Chunk(h', nodes', i) == Chunk(h, nodes, i)
  {
  }

  /** What is still needed of a chunk is what it was. */
  lemma TruncatedChunk(nodes: Nodes, f: nat, chain: seq<nat>, size: nat, i: nat)
    requires DiskOk(nodes, f, chain) && size < nodes[f].totalSize && ContCount(size) <= |nodes[f].dataSlots|
    ensures var nodes' := TruncatedNodes(nodes, f, chain, size);
            var d, d' := DiskView(nodes, f, chain), TruncatedView(nodes, f, chain, size).h;
            && Need(i, size) <= |Chunk(d', nodes', i)| <= CHUNK_SIZE && Need(i, size) <= |Chunk(d, nodes, i)|
            && Chunk(d', nodes', i)[..Need(i, size)] == Chunk(d, nodes, i)[..Need(i, size)]
  {
    hide Walk;
    hide Dropped;
    hide ChainIds;
    hide SlotsOk;
    var d, d' := DiskView(nodes, f, chain), TruncatedView(nodes, f, chain, size).h;
    ViewIsCut(nodes, f, chain, size);
    NeedFacts(i, size);
    assert Need(i, size) <= Need(i, d.total) <= |Chunk(d, nodes, i)| <= CHUNK_SIZE;
    if 1 <= i < ChunkCount(size) {
      KeptChunk(nodes, f, chain, size, i);
    }
  }

  // ── On the whole state ────────────────────────────────────────────────────

  function Truncated(s: State, f: nat, size: nat): State {
    var chain := if f in s.files then s.files[f].chain else [];
    s.(nodes := TruncatedNodes(s.nodes, f, chain, size), files := s.files[f := TruncatedView(s.nodes, f, chain, size)])
  }

  /**
   Truncating a closed file on disk: other files keep their bytes, the ids that only the index chain
   listed become orphans, and without any such id the state stays sound and the file takes a prefix.
   */
  lemma TruncatedAll(s: State, f: nat, size: nat)
    requires Sound(s) && f in s.files && !s.IsOpen(f) && size < s.files[f].h.total
    ensures DirectOk(s.nodes, f, s.files[f].chain) && s.nodes[f].totalSize == s.files[f].h.total
    ensures OthersKept(s, Truncated(s, f, size), f) && SlotsKept(s, Truncated(s, f, size).nodes, f)
    ensures SlotsKept(s, s.nodes - Dropped(s.nodes, f, s.files[f].chain, size), f)
    ensures Orphans(Truncated(s, f, size)) == OverflowSlots(s, f)
    ensures OverflowSlots(s, f) == {} ==>
              Sound(Truncated(s, f, size)) && Truncated(s, f, size).BytesOf(f) == Slice(s.BytesOf(f), 0, size)
  {
    hide FileOk;
    hide Footprint;
    hide Sound;
    hide TruncatedNodes;
    hide TruncatedView;
    hide OthersKept;
    hide Orphans;
    hide OverflowSlots;
    hide DiskBytes;
    hide DiskView;
    hide FileBytes;
    hide Dropped;
    hide SlotsKept;
    hide DirectOk;
    ClosedParts(s, f);
    ClosedTotal(s, f);
    ClosedListing(s, f);
    TruncatedOthers(s, f, size);
    HalfTruncated(s, f, size);
    TruncatedOrphans(s, f, size);
    if OverflowSlots(s, f) == {} {
      TruncatedSound(s, f, size);
    }
  }

  /** The slots of the truncated file and those it gives up are the listed ones. */
  lemma TruncatedSlots(nodes: Nodes, f: nat, chain: seq<nat>, size: nat)
    requires DiskOk(nodes, f, chain)
    ensures var kept := TruncatedView(nodes, f, chain, size).Slots();
            kept + Dropped(nodes, f, chain, size) == Listing(nodes, f, chain) && kept !! Dropped(nodes, f, chain, size)
  {
    hide TruncatedNodes;
    hide DiskView;
    hide Need;
    hide ChainIds;
    var ids, n := nodes[f].dataSlots, Cut(nodes[f].dataSlots, size);
    ViewIsCut(nodes, f, chain, size);
    KeptChunks(nodes, f, chain, size);
    var h := TruncatedView(nodes, f, chain, size).h;
    SlotMapSlots(h, ids[..n]);
    assert ids == ids[..n] + ids[n..];
    forall x | x in SlotSet(ids) ensures x in SlotSet(ids[..n]) + SlotSet(ids[n..]) {
      assert x in ids[..n] + ids[n..];
    }
    forall x | x in SlotSet(ids[..n]) ensures x !in Dropped(nodes, f, chain, size) {
      var i :| 0 <= i < n && ids[i] == x;
    }
  }

  lemma SlotMapSlots(h: Handle, ids: seq<nat>)
    requires h.slotMap == SlotMapOf(ids)
    ensures DataSlots(h) == SlotSet(ids)
  {
    forall i | 0 <= i < |ids| ensures h.slotMap[i + 1] == Some(ids[i]) {
    }
  }

  lemma TruncatedOthers(s: State, f: nat, size: nat)
    requires Sound(s) && f in s.files && !s.IsOpen(f) && DiskOk(s.nodes, f, s.files[f].chain)
    ensures SlotsKept(s, Truncated(s, f, size).nodes, f) && OthersKept(s, Truncated(s, f, size), f)
  {
    hide FileOk;
    hide Footprint;
    hide FilesSound;
    hide TreeSound;
    hide HandlesSound;
    hide Dropped;
    hide CutHead;
    hide DiskView;
    hide FileBytes;
    hide Listing;
    hide OverflowSlots;
    hide TruncatedView;
    var nodes' := Truncated(s, f, size).nodes;
    ClosedListing(s, f);
    TruncatedSlots(s.nodes, f, s.files[f].chain, size);
    forall g, y | g in s.files && g != f && y in s.files[g].Slots()
      ensures y in s.nodes && y in nodes' && nodes'[y] == s.nodes[y]
    {
      FileAt(s.nodes, s.files, g);
      FileAt(s.nodes, s.files, f);
    }
    KeptElsewhere(s, nodes', f);
  }

  lemma HalfTruncated(s: State, f: nat, size: nat)
    requires Sound(s) && f in s.files && SlotsKept(s, Truncated(s, f, size).nodes, f)
    ensures SlotsKept(s, s.nodes - Dropped(s.nodes, f, s.files[f].chain, size), f)
  {
    hide FileOk;
    hide Footprint;
    hide FilesSound;
    hide TreeSound;
    hide HandlesSound;
    hide Dropped;
    hide CutHead;
    hide TruncatedView;
    var nodes' := Truncated(s, f, size).nodes;
    FileAt(s.nodes, s.files, f);
    forall g, y | g in s.files && g != f && y in s.files[g].Slots()
      ensures y in s.nodes && y != f && y !in Dropped(s.nodes, f, s.files[f].chain, size)
    {
      assert y in nodes';
    }
  }

  lemma TotalIsLength(s: State, f: nat)
    requires Sound(s)
    ensures f in s.files ==> |s.BytesOf(f)| == s.files[f].h.total
  {
    hide Sound;
  }

  lemma ClosedTotal(s: State, f: nat)
    requires Sound(s) && f in s.files && !s.IsOpen(f)
    ensures f in s.nodes && s.nodes[f].File? && s.nodes[f].totalSize == s.files[f].h.total
  {
    hide FileOk;
    hide Footprint;
    ClosedParts(s, f);
  }

  /** The excess ids are slots in use off the index chain, which survives their release. */
  lemma CutStays(nodes: Nodes, f: nat, chain: seq<nat>, size: nat)
    requires DirectOk(nodes, f, chain)
    ensures f in nodes && nodes[f].File?
    ensures var ids := nodes[f].dataSlots; var n := Cut(ids, size);
            && Walk(nodes - SlotSet(ids[n..]), nodes[f].indexChain, chain)
            && SlotSet(ids[n..]) <= nodes.Keys && f !in Dropped(nodes, f, chain, size)
            && (forall i, j :: 0 <= i < j < |ids[n..]| ==> ids[n..][i] != ids[n..][j])
  {
    var ids := nodes[f].dataSlots;
    var n := Cut(ids, size);
    forall x | x in SlotSet(ids[n..]) ensures x in nodes && nodes[x].FileData? {
      var i :| 0 <= i < |ids[n..]| && ids[n..][i] == x;
      assert ids[n + i] == x;
    }
    WalkFrame(nodes, nodes - SlotSet(ids[n..]), nodes[f].indexChain, chain);
  }

  /** A closed file owns the listed slots and the overflow slots. */
  lemma ClosedListing(s: State, f: nat)
    requires Sound(s) && f in s.files && !s.IsOpen(f)
    ensures s.files[f].Slots() == Listing(s.nodes, f, s.files[f].chain) + OverflowSlots(s, f)
    ensures Listing(s.nodes, f, s.files[f].chain) !! OverflowSlots(s, f)
    ensures DirectOk(s.nodes, f, s.files[f].chain)
  {
    hide FileOk;
    hide Footprint;
    hide Listing;
    hide OverflowSlots;
    ClosedParts(s, f);
    ListedSlots(s, f);
  }

  lemma TruncatedOrphans(s: State, f: nat, size: nat)
    requires Sound(s) && f in s.files && !s.IsOpen(f) && DiskOk(s.nodes, f, s.files[f].chain)
    ensures Orphans(Truncated(s, f, size)) == OverflowSlots(s, f)
  {
    hide FileOk;
    hide Footprint;
    hide TreeSound;
    hide HandlesSound;
    hide FileSlots;
    hide Dropped;
    hide CutHead;
    hide Listing;
    hide OverflowSlots;
    hide TruncatedView;
    var chain := s.files[f].chain;
    ClosedListing(s, f);
    TruncatedSlots(s.nodes, f, chain, size);
    HeadIsCut(s.nodes, f, size);
    FileAt(s.nodes, s.files, f);
    var v' := TruncatedView(s.nodes, f, chain, size);
    var s' := Truncated(s, f, size);
    FileSlotsUpdate(s.files, f, v');
    FileSlotsDrop(s.files, f);
    TruncatedHead(s.nodes, f, chain, size);
    assert s'.nodes.Keys == s.nodes.Keys - Dropped(s.nodes, f, chain, size);
    assert Dirs(s'.nodes).Keys == Dirs(s.nodes).Keys;
    CutAlgebra(s.nodes.Keys, Dirs(s.nodes).Keys, FileSlots(s.files), v'.Slots(), Dropped(s.nodes, f, chain, size),
               OverflowSlots(s, f));
  }

  lemma TruncatedHead(nodes: Nodes, f: nat, chain: seq<nat>, size: nat)
    requires DiskOk(nodes, f, chain)
    ensures f in nodes && f !in Dropped(nodes, f, chain, size)
  {
    hide ChainIds;
    KeptChunks(nodes, f, chain, size);
  }

  lemma CutAlgebra(used: set<nat>, dirs: set<nat>, owned: set<nat>, kept: set<nat>, dropped: set<nat>, over: set<nat>)
    requires used == dirs + owned && kept + dropped + over <= owned && kept !! dropped && (kept + dropped) !! over
    requires (kept + dropped + over) !! dirs
    ensures (used - dropped) - dirs - (owned - (kept + dropped + over) + kept) == over
  {
  }

  lemma TruncatedSound(s: State, f: nat, size: nat)
    requires Sound(s) && f in s.files && !s.IsOpen(f) && size < s.files[f].h.total && OverflowSlots(s, f) == {}
    requires DiskOk(s.nodes, f, s.files[f].chain) && SlotsKept(s, Truncated(s, f, size).nodes, f)
    ensures Sound(Truncated(s, f, size)) && Truncated(s, f, size).BytesOf(f) == Slice(s.BytesOf(f), 0, size)
  {
    hide FileOk;
    hide Footprint;
    hide TreeSound;
    hide FilesSound;
    hide KnownSound;
    hide TruncatedNodes;
    hide TruncatedView;
    hide OthersKept;
    hide SlotsKept;
    hide OverflowSlots;
    hide DiskBytes;
    hide DiskView;
    hide FileBytes;
    hide OnlyFile;
    hide OwnHandle;
    var chain := s.files[f].chain;
    var v' := TruncatedView(s.nodes, f, chain, size);
    var s' := Truncated(s, f, size);
    ClosedParts(s, f);
    TruncatedFile(s, f, size);
    FileStepSound(s.nodes, s.files, f, s'.nodes, v');
    TruncatedOnly(s, f, size);
    StepDone(s, s', f);
    KnownKept(s, s');
  }

  /** Without overflow ids, the truncated file is sound inside its own slots. */
  lemma TruncatedFile(s: State, f: nat, size: nat)
    requires Sound(s) && f in s.files && !s.IsOpen(f) && size < s.files[f].h.total && OverflowSlots(s, f) == {}
    requires DiskOk(s.nodes, f, s.files[f].chain) && s.files[f].h == DiskView(s.nodes, f, s.files[f].chain)
    ensures var v' := TruncatedView(s.nodes, f, s.files[f].chain, size);
            && FileStepped(s.nodes, s.files, f, Truncated(s, f, size).nodes, v')
            && FileBytes(v'.h, Truncated(s, f, size).nodes) == Slice(s.BytesOf(f), 0, size)
  {
    hide FileOk;
    hide FilesSound;
    hide HandlesSound;
    hide TreeSound;
    hide Dropped;
    hide Listing;
    hide CutHead;
    hide Footprint;
    hide FileBytes;
    var chain := s.files[f].chain;
    var v' := TruncatedView(s.nodes, f, chain, size);
    NoOverflow(s.nodes, f, chain, size);
    TruncatedIsDense(s.nodes, f, chain, size);
    ClosedListing(s, f);
    TruncatedSlots(s.nodes, f, chain, size);
    TruncatedHead(s.nodes, f, chain, size);
    FileAt(s.nodes, s.files, f);
    ViewIsCut(s.nodes, f, chain, size);
    assert f in v'.Slots() by { HeadOwned(v'.h, v'.chain); }
  }

  lemma HeadOwned(h: Handle, chain: seq<nat>)
    ensures h.head in Footprint(h, chain)
  {
  }

  lemma NoOverflow(nodes: Nodes, f: nat, chain: seq<nat>, size: nat)
    requires DiskOk(nodes, f, chain) && SlotSet(ChainIds(nodes, chain)) == {} && size < nodes[f].totalSize
    ensures ContCount(size) <= |nodes[f].dataSlots|
  {
    NoSlots(ChainIds(nodes, chain));
    ChunkCountMonotone(size, nodes[f].totalSize);
  }

  lemma NoSlots(ids: seq<nat>)
    ensures SlotSet(ids) == {} <==> ids == []
  {
    if ids == [] {
      assert SlotSet(ids) == {};
    } else {
      assert ids[0] in SlotSet(ids);
    }
  }

  lemma TruncatedOnly(s: State, f: nat, size: nat)
    requires HandlesSound(s) && f in s.files && !s.IsOpen(f) && SlotsKept(s, Truncated(s, f, size).nodes, f)
    ensures OnlyFile(s, Truncated(s, f, size), f) && OwnHandle(Truncated(s, f, size), f)
  {
    hide SlotsKept;
    hide TruncatedNodes;
    forall x | x in s.views ensures s.views[x].h.head != f {
    }
  }

  // ── Extending on disk ─────────────────────────────────────────────────────

  /** Only the size that the head records becomes larger. */
  function StretchedNodes(nodes: Nodes, f: nat, size: nat): Nodes {
    if f in nodes && nodes[f].File? then nodes[f := nodes[f].(totalSize := size)] else nodes
  }

  function Stretched(s: State, f: nat, size: nat): State {
    var chain := if f in s.files then s.files[f].chain else [];
    var nodes' := StretchedNodes(s.nodes, f, size);
    s.(nodes := nodes', files := s.files[f := FileView(DiskView(nodes', f, chain), chain)])
  }

  /** The bytes so far stay, and the file is dense exactly when its chunks already reach the new size. */
  lemma StretchedIsDense(nodes: Nodes, f: nat, chain: seq<nat>, size: nat)
    requires DiskOk(nodes, f, chain) && size > nodes[f].totalSize
    ensures var nodes', d := StretchedNodes(nodes, f, size), DiskView(nodes, f, chain);
            && DiskView(nodes', f, chain) == d.(total := size) && d.head == f
            && (DiskOk(nodes', f, chain) <==> Covers(d, nodes, size))
            && DiskBytes(nodes', f, chain)[..d.total] == DiskBytes(nodes, f, chain)
            && DiskBytes(nodes', f, chain) == Contents(d, nodes, size)
            && Touched(d, chain, nodes, DiskView(nodes', f, chain), chain, nodes')
  {
    hide FileOk;
    hide Touched;
    hide Covers;
    var nodes', d := StretchedNodes(nodes, f, size), DiskView(nodes, f, chain);
    StretchedView(nodes, f, chain, size);
    StretchedChunks(nodes, f, chain, size);
    var d' := d.(total := size);
    forall p | 0 <= p < d.total ensures FileBytes(d', nodes')[p] == FileBytes(d, nodes)[p] {
      assert Chunk(d', nodes', p / CHUNK_SIZE) == Chunk(d, nodes, p / CHUNK_SIZE);
    }
  }

  lemma StretchedView(nodes: Nodes, f: nat, chain: seq<nat>, size: nat)
    requires DiskOk(nodes, f, chain)
    ensures var nodes', d := StretchedNodes(nodes, f, size), DiskView(nodes, f, chain);
            && DiskView(nodes', f, chain) == d.(total := size)
            && Touched(d, chain, nodes, DiskView(nodes', f, chain), chain, nodes')
            && IsChain(nodes', nodes[f].indexChain, chain)
  {
    hide Dense;
    hide IsChain;
    var nodes', d := StretchedNodes(nodes, f, size), DiskView(nodes, f, chain);
    OutsideChain(d, nodes, chain);
    FileParts(d, nodes, chain);
    FootprintInUse(d, nodes, chain);
    ChainFrame(nodes, nodes', nodes[f].indexChain, chain);
    assert DataSlots(DiskView(nodes', f, chain)) == DataSlots(d);
  }

  lemma StretchedChunks(nodes: Nodes, f: nat, chain: seq<nat>, size: nat)
    requires DiskOk(nodes, f, chain) && size > nodes[f].totalSize
    requires DiskView(StretchedNodes(nodes, f, size), f, chain) == DiskView(nodes, f, chain).(total := size)
    requires IsChain(StretchedNodes(nodes, f, size), nodes[f].indexChain, chain)
    ensures var nodes', d := StretchedNodes(nodes, f, size), DiskView(nodes, f, chain);
            && (forall i: nat :: Chunk(d.(total := size), nodes', i) == Chunk(d, nodes, i))
            && (DiskOk(nodes', f, chain) <==> Covers(d, nodes, size))
  {
    hide IsChain;
    var nodes', d := StretchedNodes(nodes, f, size), DiskView(nodes, f, chain);
    var d' := d.(total := size);
    FileParts(d, nodes, chain);
    forall i | 0 <= i < |d.slotMap| && d.slotMap[i].Some? ensures d.slotMap[i].value != f {
      assert nodes[d.slotMap[i].value].FileData?;
    }
    assert forall i: nat :: Stored(d', nodes', i) == Stored(d, nodes, i);
    assert forall i: nat :: Chunk(d', nodes', i) == Chunk(d, nodes, i);
    assert Covers(d', nodes', size) <==> Covers(d, nodes, size);
    ChunkCountMonotone(d.total, size);
  }

  /** Extending a closed file on disk, on the whole state. */
  lemma StretchedAll(s: State, f: nat, size: nat)
    requires Sound(s) && f in s.files && !s.IsOpen(f) && size > s.files[f].h.total
    ensures SlotsKept(s, Stretched(s, f, size).nodes, f)
    ensures Sound(Stretched(s, f, size)) <==> Covers(s.files[f].h, s.nodes, size)
    ensures Sound(Stretched(s, f, size)) ==> Grown(s, Stretched(s, f, size), f, size)
  {
    hide FileOk;
    hide Footprint;
    hide Touched;
    hide TreeSound;
    hide FilesSound;
    hide KnownSound;
    hide OthersKept;
    hide SlotsKept;
    hide DiskBytes;
    hide DiskView;
    hide FileBytes;
    hide OnlyFile;
    hide OwnHandle;
    hide Covers;
    hide StretchedNodes;
    var chain := s.files[f].chain;
    var s' := Stretched(s, f, size);
    ClosedParts(s, f);
    ClosedTotal(s, f);
    StretchedIsDense(s.nodes, f, chain, size);
    StretchedElsewhere(s, f, size);
    if Covers(s.files[f].h, s.nodes, size) {
      StretchedSound(s, f, size);
    } else if Sound(s') {
      FileAt(s'.nodes, s'.files, f);
      assert false;
    }
  }

  lemma StretchedElsewhere(s: State, f: nat, size: nat)
    requires Sound(s) && f in s.files && !s.IsOpen(f)
    ensures SlotsKept(s, Stretched(s, f, size).nodes, f)
    ensures OthersKept(s, Stretched(s, f, size), f)
  {
    hide FileOk;
    hide Footprint;
    hide FilesSound;
    hide TreeSound;
    hide HandlesSound;
    hide DiskView;
    hide FileBytes;
    var nodes' := Stretched(s, f, size).nodes;
    forall g, y | g in s.files && g != f && y in s.files[g].Slots()
      ensures y in s.nodes && y in nodes' && nodes'[y] == s.nodes[y]
    {
      FileAt(s.nodes, s.files, g);
      FileAt(s.nodes, s.files, f);
    }
    KeptElsewhere(s, nodes', f);
  }

  lemma StretchedSound(s: State, f: nat, size: nat)
    requires Sound(s) && f in s.files && !s.IsOpen(f) && size > s.files[f].h.total
    requires Covers(s.files[f].h, s.nodes, size) && SlotsKept(s, Stretched(s, f, size).nodes, f)
    requires OthersKept(s, Stretched(s, f, size), f)
    ensures Sound(Stretched(s, f, size)) && Grown(s, Stretched(s, f, size), f, size)
  {
    hide FileOk;
    hide Footprint;
    hide Touched;
    hide TreeSound;
    hide FilesSound;
    hide KnownSound;
    hide OthersKept;
    hide SlotsKept;
    hide DiskView;
    hide FileBytes;
    hide OnlyFile;
    hide OwnHandle;
    hide Covers;
    hide StretchedNodes;
    var chain := s.files[f].chain;
    var s' := Stretched(s, f, size);
    ClosedParts(s, f);
    ClosedTotal(s, f);
    StretchedIsDense(s.nodes, f, chain, size);
    FileStepSound(s.nodes, s.files, f, s'.nodes, s'.files[f]);
    StretchedOnly(s, f, size);
    StepDone(s, s', f);
    KnownKept(s, s');
  }

  lemma StretchedOnly(s: State, f: nat, size: nat)
    requires HandlesSound(s) && f in s.files && !s.IsOpen(f) && SlotsKept(s, Stretched(s, f, size).nodes, f)
    ensures OnlyFile(s, Stretched(s, f, size), f) && OwnHandle(Stretched(s, f, size), f)
  {
    hide SlotsKept;
    hide StretchedNodes;
    forall x | x in s.views ensures s.views[x].h.head != f {
    }
  }

  // ── The two truncation paths ──────────────────────────────────────────────

  /**
   Shrinking a fresh handle and flushing it writes exactly the disk that shrinking without a handle
   writes: same head, same data slots, same freed slots.
   */
  lemma TwoTruncationsAgree(nodes: Nodes, f: nat, size: nat)
    requires DiskOk(nodes, f, []) && size < nodes[f].totalSize && |nodes[f].dataSlots| <= MAX_DIRECT_SLOTS
    ensures var h := Shrunk(OpenedView(nodes, f, []), size);
            && DirtyCached(h) == {} && |KeptIds(h)| <= MAX_DIRECT_SLOTS
            && FlushedNodes(h, nodes) == TruncatedNodes(nodes, f, [], size)
  {
    hide NewHead;
    hide CutHead;
    hide KeptIds;
    hide TailSlots;
    hide FileOk;
    var o := OpenedView(nodes, f, []);
    var h := Shrunk(o, size);
    var n := Max(ChunkCount(size), 1);
    var ids := nodes[f].dataSlots;
    assert ids + [] == ids;
    NoOverflow(nodes, f, [], size);
    assert h.slotMap == SlotMapOf(ids) && n - 1 == Cut(ids, size);
    KeptIdsCut(h, ids, n);
    TailSlotsCut(h, ids, n);
    NoSlots([]);
    assert Dropped(nodes, f, [], size) == TailSlots(h, n);
    TruncatedHead(nodes, f, [], size);
    SameHead(nodes, f, size);
    var mid := nodes - TailSlots(h, n);
    assert f in mid && mid[f] == nodes[f];
  }

  lemma KeptIdsCut(h: Handle, ids: seq<nat>, n: nat)
    requires h.slotMap == SlotMapOf(ids) && n == Max(ChunkCount(h.total), 1) <= 1 + |ids|
    ensures KeptIds(h) == ids[..n - 1]
  {
    var m := Kept(h).slotMap;
    assert m == SlotMapOf(ids)[..n];
    assert forall i :: 0 <= i < n - 1 ==> m[1..][i] == Some(ids[i]);
    AllocatedKeepsPositions(m[1..]);
    var got := Allocated(m[1..]);
    assert |got| == n - 1;
    forall i | 0 <= i < n - 1 ensures got[i] == ids[i] {
      assert SlotMapOf(got)[1 + i] == ([None] + m[1..])[1 + i];
    }
  }

  lemma TailSlotsCut(h: Handle, ids: seq<nat>, n: nat)
    requires h.slotMap == SlotMapOf(ids) && 1 <= n <= 1 + |ids|
    ensures TailSlots(h, n) == SlotSet(ids[n - 1..])
  {
    forall x | x in SlotSet(ids[n - 1..]) ensures x in TailSlots(h, n) {
      var i :| 0 <= i < |ids[n - 1..]| && ids[n - 1..][i] == x;
      assert h.slotMap[n + i] == Some(x);
    }
    forall x | x in TailSlots(h, n) ensures x in SlotSet(ids[n - 1..]) {
      var i :| n <= i < |h.slotMap| && h.slotMap[i] == Some(x);
      assert ids[n - 1..][i - n] == x;
    }
  }

  /** The inline data is clamped to the same bytes on both paths. */
  lemma SameHead(nodes: Nodes, f: nat, size: nat)
    requires DiskOk(nodes, f, []) && size < nodes[f].totalSize && |nodes[f].dataSlots| <= MAX_DIRECT_SLOTS
    requires ContCount(size) <= |nodes[f].dataSlots|
    ensures var h := Shrunk(OpenedView(nodes, f, []), size);
            var n := Max(ChunkCount(size), 1);
            forall mid: Nodes :: f in mid && mid[f] == nodes[f] ==>
              NewHead(h, mid, nodes[f].dataSlots[..n - 1], None) == CutHead(nodes, f, size)
    ensures DirtyCached(Shrunk(OpenedView(nodes, f, []), size)) == {}
  {
    var h := Shrunk(OpenedView(nodes, f, []), size);
    var data := nodes[f].data;
    assert |data| <= CHUNK_SIZE;
    assert forall i :: i in h.cache ==> i == 0;
    if 0 in h.cache {
      assert h.cache[0] == if LastChunk(size) == 0 then Truncate(data, Need(0, size)) else data;
    }
  }
}
