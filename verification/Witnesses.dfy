/**
 Concrete states at which an operation of vnmcore/src/fs/fuse.rs does what it should not: the least file
 with an overflow chain, the least write that leaves a hole, and the least trees that a rename breaks.
 */
module Witnesses {
  import opened Wrappers
  import opened Bytes
  import opened VaultFs
  import opened Handle
  import opened IndexChain
  import opened FileState
  import opened FlushSteps
  import opened Fs
  import opened FsState
  import opened DirSteps
  import opened Truncation
  import opened Mount
  import opened Reachable
  import opened Container

  // ── A file with an overflow chain ─────────────────────────────────────────

  const ROOT: nat := 1
  const HEAD: nat := 2
  const INDEX: nat := 3
  const FIRST: nat := 4
  /** The data slot that only the index block lists. */
  const LAST: nat := FIRST + MAX_DIRECT_SLOTS

  /** One more continuation chunk than the head lists. */
  const BIG_SIZE: nat := (MAX_DIRECT_SLOTS + 2) * CHUNK_SIZE

  function DirectIds(): (ids: seq<nat>)
    ensures |ids| == MAX_DIRECT_SLOTS && forall i :: 0 <= i < |ids| ==> ids[i] == FIRST + i
  {
    seq(MAX_DIRECT_SLOTS, i => FIRST + i)
  }

  /** A whole first chunk. */
  const FULL: seq<byte> := Zeros(CHUNK_SIZE)

  function BigNode(s: nat, data: seq<byte>): Node {
    if s == ROOT then Directory([DirEntry("big", HEAD, FileKind)])
    else if s == HEAD then File(BIG_SIZE, DirectIds(), Some(INDEX), data)
    else if s == INDEX then FileIndex([LAST], None)
    else FileData(Zeros(CHUNK_SIZE))
  }

  /** The disk with that file, whose first chunk holds `data`. */
  function BigNodes(data: seq<byte>): Nodes {
    map s: nat | ROOT <= s <= LAST :: BigNode(s, data)
  }

  function BigHandle(): Handle {
    DiskView(BigNodes(FULL), HEAD, [INDEX])
  }

  lemma BigChain()
    ensures IsChain(BigNodes(FULL), Some(INDEX), [INDEX]) && ChainIds(BigNodes(FULL), [INDEX]) == [LAST]
  {
    assert [INDEX][1..] == [];
    assert BigNodes(FULL)[INDEX] == FileIndex([LAST], None);
  }

  lemma BigSlotMap()
    ensures BigHandle() == Handle(HEAD, BIG_SIZE, Some(INDEX), BigHandle().slotMap, map[], {}, false)
    ensures |BigHandle().slotMap| == MAX_DIRECT_SLOTS + 2 && BigHandle().slotMap[0] == None
    ensures forall i :: 1 <= i <= MAX_DIRECT_SLOTS + 1 ==> BigHandle().slotMap[i] == Some(FIRST + i - 1)
  {
    BigChain();
    assert BigNodes(FULL)[HEAD] == BigNode(HEAD, FULL);
    assert BigHandle().slotMap == SlotMapOf(DirectIds() + [LAST]);
  }

  lemma BigFileOk()
    ensures FileOk(BigHandle(), BigNodes(FULL), [INDEX])
    ensures forall s: nat :: s in Footprint(BigHandle(), [INDEX]) <==> HEAD <= s <= LAST
  {
    BigChain();
    BigSlotMap();
    var h, nodes := BigHandle(), BigNodes(FULL);
    forall i: nat
      ensures Need(i, BIG_SIZE) <= |Chunk(h, nodes, i)| <= CHUNK_SIZE
    {
      if i <= MAX_DIRECT_SLOTS + 1 {
        assert i > 0 ==> nodes[FIRST + i - 1] == FileData(Zeros(CHUNK_SIZE));
        assert nodes[HEAD] == BigNode(HEAD, FULL);
      }
    }
    forall s: nat | FIRST <= s <= LAST ensures s in DataSlots(h) {
      assert h.slotMap[s - FIRST + 1] == Some(s);
    }
  }

  /** The closed file, listed in the root directory. */
  function BigState(): State {
    State(BigNodes(FULL), map[HEAD := FileView(BigHandle(), [INDEX])], ROOT, map[HEAD := ROOT], map[], {ROOT, HEAD})
  }

  /** It is a sound state: reached from a fresh volume by creating the file, filling it and closing it. */
  lemma BigSound()
    ensures Sound(BigState()) && !BigState().IsOpen(HEAD)
    ensures ListedAt(BigNodes(FULL), Some(ROOT), "big") == Ok(HEAD)
    ensures Recorded(BigHandle(), BigNodes(FULL), [INDEX]) && OverflowSlots(BigState(), HEAD) == {LAST}
  {
    hide Sound;
    hide FileOk;
    hide Footprint;
    var nodes0: Nodes := map[ROOT := Directory([])];
    var s0 := State(nodes0, map[], ROOT, map[], map[], {ROOT});
    FreshSound(ROOT);
    var nodes1 := nodes0[HEAD := NewFile()][ROOT := Directory([] + [DirEntry("big", HEAD, FileKind)])];
    CreatedAll(s0, ROOT, "big", HEAD, 0, nodes1);
    var s1 := Created(s0, ROOT, "big", HEAD, 0);
    BigFileOk();
    BigTouched(nodes1);
    BigSlotMap();
    BigChain();
    HandleStep(s1, 0, BigNodes(FULL), FileView(BigHandle(), [INDEX]));
    var s2 := AfterHandle(s1, 0, BigNodes(FULL), FileView(BigHandle(), [INDEX]));
    CloseStep(s2, 0);
    assert s2.views - {0} == map[];
    assert s2.files[HEAD := FileView(BigHandle(), [INDEX])] == map[HEAD := FileView(BigHandle(), [INDEX])];
    assert s1.parent == map[HEAD := ROOT] && s1.known == {ROOT, HEAD};
  }

  lemma BigFiles()
    ensures BigState().nodes == BigNodes(FULL) && HEAD in BigState().files
    ensures BigState().files[HEAD] == FileView(BigHandle(), [INDEX])
  {
  }

  lemma BigTouched(nodes: Nodes)
    requires nodes ==
               map[ROOT := Directory([])][HEAD := NewFile()][ROOT := Directory([] + [DirEntry("big", HEAD, FileKind)])]
    ensures Touched(NewView(HEAD).h, [], nodes, BigHandle(), [INDEX], BigNodes(FULL))
  {
    hide FileOk;
    hide Footprint;
    BigFileOk();
    assert Footprint(NewView(HEAD).h, []) == {HEAD} by { SmallFootprint(); }
    assert [] + [DirEntry("big", HEAD, FileKind)] == [DirEntry("big", HEAD, FileKind)];
    assert BigNodes(FULL)[ROOT] == BigNode(ROOT, FULL);
    assert BigNodes(FULL).Keys == nodes.Keys - {HEAD} + Footprint(BigHandle(), [INDEX]);
  }

  lemma SmallFootprint()
    ensures Footprint(NewView(HEAD).h, []) == {HEAD}
  {
  }

  /** Removing this file leaves the slot that only its index block lists in use and owned by nobody. */
  lemma UnlinkLeaks()
    ensures Sound(BigState()) && Orphans(Unlinked(BigState(), ROOT, "big", HEAD)) == {LAST}
  {
    hide Sound;
    hide BigState;
    BigSound();
    BigFiles();
    RecordedListsOwn(BigState(), HEAD);
    UnlinkedAll(BigState(), ROOT, "big", HEAD);
  }

  /** Cutting its last byte on disk does the same, and the chunk in that slot is gone from the file. */
  lemma TruncateLeaks()
    ensures Sound(BigState()) && Orphans(Truncated(BigState(), HEAD, BIG_SIZE - 1)) == {LAST}
    ensures !DiskOk(Truncated(BigState(), HEAD, BIG_SIZE - 1).nodes, HEAD, [])
  {
    hide Sound;
    BigSound();
    BigSlotMap();
    TruncatedAll(BigState(), HEAD, BIG_SIZE - 1);
    assert BigNodes(FULL)[HEAD] == BigNode(HEAD, FULL);
    ClosedParts(BigState(), HEAD);
    TruncatedIsDense(BigNodes(FULL), HEAD, [INDEX], BIG_SIZE - 1);
  }

  // ── The same for a file written from the second chunk on ──────────────────

  /** The slots that a node names. */
  function Refs(n: Node): set<nat> {
    match n
    case Directory(entries) => EntrySlots(entries)
    case File(_, dataSlots, indexChain, _) => SlotSet(dataSlots) + (if indexChain.Some? then {indexChain.value} else {})
    case FileIndex(ids, next) => SlotSet(ids) + (if next.Some? then {next.value} else {})
    case FileData(_) => {}
  }

  /** In use, and named by no node. */
  ghost predicate Unreferenced(nodes: Nodes, t: nat) {
    t in nodes && forall s :: s in nodes ==> t !in Refs(nodes[s])
  }

  lemma BigRefs(data: seq<byte>)
    ensures forall i :: 0 <= i < MAX_DIRECT_SLOTS ==> DirectIds()[i] in BigNodes(data)
    ensures forall t: nat :: t in SlotSet(DirectIds()) <==> FIRST <= t < LAST
    ensures BigNodes(data)[HEAD] == BigNode(HEAD, data) && BigNodes(data)[INDEX] == FileIndex([LAST], None)
    ensures LAST in Refs(BigNodes(data)[INDEX])
    ensures forall t :: t in BigNodes(data) && BigNodes(data)[t].File? ==> t == HEAD
    ensures forall t :: t in BigNodes(data) && BigNodes(data)[t].FileIndex? ==> t == INDEX
  {
    forall t: nat | FIRST <= t < LAST ensures t in SlotSet(DirectIds()) {
      assert DirectIds()[t - FIRST] == t;
    }
    assert [LAST][0] in SlotSet([LAST]);
  }

  lemma BigDirect(data: seq<byte>)
    ensures DirectOk(BigNodes(data), HEAD, [INDEX])
    ensures forall t: nat :: t in Listing(BigNodes(data), HEAD, [INDEX]) <==> HEAD <= t < LAST
  {
    BigRefs(data);
    assert [INDEX][1..] == [];
    assert [INDEX][0] in SlotSet([INDEX]);
  }

  /**
   Whatever the first chunk holds, and it is empty in a file that was written from byte 30,000 on: once
   the entry is gone and what the head lists is freed, the last slot is in use and no node names it.
   */
  lemma UnlinkLeavesSlot(data: seq<byte>)
    ensures DirectOk(BigNodes(data), HEAD, [INDEX]) && ListedAt(BigNodes(data), Some(ROOT), "big") == Ok(HEAD)
    ensures !Unreferenced(BigNodes(data), LAST)
    ensures Unreferenced(BigNodes(data)[ROOT := Unlisted(BigNodes(data), ROOT, "big")]
                         - Listing(BigNodes(data), HEAD, [INDEX]), LAST)
  {
    BigDirect(data);
    BigRefs(data);
    var es := [DirEntry("big", HEAD, FileKind)];
    assert BigNodes(data)[ROOT] == Directory(es) && es[0].name == "big";
    assert Without(es, 0) == [];
  }

  /** Cut by its last byte on disk: the same slot is in use, no node names it, and its chunk is lost. */
  lemma TruncateLeavesSlot(data: seq<byte>)
    requires |data| <= CHUNK_SIZE
    ensures DirectOk(BigNodes(data), HEAD, [INDEX]) && BigNodes(data)[HEAD].totalSize == BIG_SIZE
    ensures var nodes' := TruncatedNodes(BigNodes(data), HEAD, [INDEX], BIG_SIZE - 1);
            && Unreferenced(nodes', LAST)
            && nodes'[HEAD] == File(BIG_SIZE - 1, DirectIds(), None, data)
            && ContCount(BIG_SIZE - 1) > |DirectIds()|
  {
    BigDirect(data);
    BigRefs(data);
    CutHeadIs(BigNodes(data), HEAD, BIG_SIZE - 1);
    assert DirectIds()[..MAX_DIRECT_SLOTS] == DirectIds();
    assert LAST !in Dropped(BigNodes(data), HEAD, [INDEX], BIG_SIZE - 1);
  }

  // ── A hole ────────────────────────────────────────────────────────────────

  /** A handle in step with a file of whole chunks, written once past its end and flushed: what is on disk then. */
  function AfterSparse(h: Handle, nodes: Nodes, pos: nat, d: seq<byte>, slot: nat): Nodes {
    var h1 := ChunkAppended(h, pos, d, pos + |d|);
    var ci := pos / CHUNK_SIZE;
    var nodes2 := nodes[slot := FileData(Patch(Zeros(CHUNK_SIZE), pos % CHUNK_SIZE, d))];
    FinishedNodes(StoredAt(h1, ci, slot), nodes2)
  }

  /** The handle after the chunk was given its slot. */
  function StoredAt(h: Handle, ci: nat, slot: nat): Handle {
    h.(slotMap := if ci < |h.slotMap| then h.slotMap[ci := Some(slot)] else h.slotMap, dirty := h.dirty - {ci})
  }

  /**
   The caller's condition: if every chunk so far has a slot, a write into chunk ci past them keeps its
   place over a flush exactly when ci is the very next chunk.
   */
  lemma HoleIff(m: seq<Option<nat>>, ci: nat, slot: nat)
    requires |m| >= 1 && m[0] == None && (forall i :: 1 <= i < |m| ==> m[i].Some?) && ci >= |m|
    ensures var m' := (m + Unmapped(ci + 1 - |m|))[ci := Some(slot)];
            SlotMapOf(Allocated(m'[1..])) == m' <==> ci == |m|
  {
    var m' := (m + Unmapped(ci + 1 - |m|))[ci := Some(slot)];
    AllocatedKeepsPositions(m'[1..]);
    assert m' == [None] + m'[1..];
    if ci > |m| {
      assert m'[1..][|m| - 1] == None;
    } else {
      forall i | 0 <= i < |m'[1..]| ensures m'[1..][i].Some? {
        assert m'[1..][i] == m'[i + 1];
      }
    }
  }

  /**
   An empty file, the byte 7 written at 60,000, a flush, a new open: the byte is read at 30,000, and where
   it was written nothing can be loaded any more.
   */
  lemma HoleMovesBytes(nodes: Nodes, f: nat, slot: nat)
    requires f in nodes && nodes[f] == NewFile() && slot !in nodes
    ensures var h1 := ChunkAppended(NewView(f).h, 60_000, [7], 60_001);
            ByteAt(Chunk(h1, nodes, 60_000 / CHUNK_SIZE), 60_000 % CHUNK_SIZE) == 7
    ensures var nodes' := AfterSparse(NewView(f).h, nodes, 60_000, [7], slot);
            var o := OpenedView(nodes', f, []);
            && o.total == 60_001 && o.slotMap == [None, Some(slot)]
            && ByteAt(Chunk(o, nodes', 30_000 / CHUNK_SIZE), 30_000 % CHUNK_SIZE) == 7
            && !Loadable(o, nodes', 60_000 / CHUNK_SIZE)
  {
    var h1 := ChunkAppended(NewView(f).h, 60_000, [7], 60_001);
    assert h1.slotMap == [None, None, None];
    assert h1.slotMap[2 := Some(slot)] == [None, None, Some(slot)];
    var h2 := StoredAt(h1, 2, slot);
    assert Kept(h2) == h2 && h2.slotMap[1..] == [None, Some(slot)];
    assert Allocated([None, Some(slot)]) == [slot] by {
      assert [None, Some(slot)][1..] == [Some(slot)];
      assert [Some(slot)][1..] == [];
    }
    var nodes2 := nodes[slot := FileData(Patch(Zeros(CHUNK_SIZE), 0, [7]))];
    assert TailSlots(h2, 3) == {};
    assert nodes2 - TailSlots(h2, 3) == nodes2;
    var nodes' := AfterSparse(NewView(f).h, nodes, 60_000, [7], slot);
    assert nodes' == nodes2[f := NewHead(h2, nodes2, [slot], None)];
    assert SlotMapOf([slot] + []) == [None, Some(slot)];
  }

  // ── Renaming ──────────────────────────────────────────────────────────────

  const DIR: nat := 2
  const BELOW: nat := 3

  /** A volume after `mkdir a` and `mkdir a/b`. */
  function TwoDirs(): State {
    State(map[ROOT := Directory([DirEntry("a", DIR, DirectoryKind)]),
              DIR := Directory([DirEntry("b", BELOW, DirectoryKind)]), BELOW := Directory([])],
          map[], ROOT, map[DIR := ROOT, BELOW := DIR], map[], {ROOT, DIR, BELOW})
  }

  lemma TwoDirsSound()
    ensures Sound(TwoDirs()) && Rooted(TwoDirs().parent, ROOT)
  {
    hide Sound;
    var nodes0: Nodes := map[ROOT := Directory([])];
    var s0 := State(nodes0, map[], ROOT, map[], map[], {ROOT});
    FreshSound(ROOT);
    var nodes1 := nodes0[DIR := Directory([])][ROOT := Directory([] + [DirEntry("a", DIR, DirectoryKind)])];
    MadeDirSound(s0, ROOT, "a", DIR, nodes1);
    var s1 := MadeDir(s0, ROOT, "a", DIR);
    var nodes2 := nodes1[BELOW := Directory([])][DIR := Directory([] + [DirEntry("b", BELOW, DirectoryKind)])];
    MadeDirSound(s1, DIR, "b", BELOW, nodes2);
    assert forall e: DirEntry :: [] + [e] == [e];
    var s2 := MadeDir(s1, DIR, "b", BELOW);
    assert s2.nodes == TwoDirs().nodes;
    assert s2.parent == TwoDirs().parent && s2.known == TwoDirs().known;
    assert s2 == TwoDirs();
    assert Up(TwoDirs().parent, ROOT, 0) == ROOT;
    assert Up(TwoDirs().parent, DIR, 1) == ROOT;
    assert Up(TwoDirs().parent, BELOW, 2) == ROOT;
  }

  /** `mv a a/b/c`: every node is still listed once, two directories list each other and the root lists nothing. */
  lemma RenameMakesCircle()
    ensures Sound(TwoDirs()) && Rooted(TwoDirs().parent, ROOT)
    ensures TargetStays(TwoDirs().nodes, Some(ROOT), "a", Some(BELOW), "c")
    ensures var s' := Renamed(TwoDirs(), ROOT, "a", BELOW, "c");
            && Sound(s') && !Rooted(s'.parent, ROOT)
            && s'.nodes == map[ROOT := Directory([]), DIR := Directory([DirEntry("b", BELOW, DirectoryKind)]),
                               BELOW := Directory([DirEntry("c", DIR, DirectoryKind)])]
  {
    hide Sound;
    hide Rooted;
    TwoDirsSound();
    var s := TwoDirs();
    var es := [DirEntry("a", DIR, DirectoryKind)];
    assert s.nodes[ROOT] == Directory(es) && es[0].name == "a";
    assert Without(es, 0) == [];
    assert [] + [DirEntry("c", DIR, DirectoryKind)] == [DirEntry("c", DIR, DirectoryKind)];
    assert Replaced(MovedOut(s.nodes, ROOT, "a"), BELOW, "c") == {};
    RenamedAll(s, ROOT, "a", BELOW, "c");
    RenamedRooted(s, ROOT, "a", BELOW, "c");
    assert Up(s.parent, BELOW, 1) == DIR;
  }

  /** A volume after `mkdir a` and the creation of an empty file `f`, closed again. */
  function DirAndFile(): State {
    State(DirAndFileNodes(), map[BELOW := FileView(DiskView(DirAndFileNodes(), BELOW, []), [])], ROOT,
          map[DIR := ROOT, BELOW := ROOT], map[], {ROOT, DIR, BELOW})
  }

  function DirAndFileNodes(): Nodes {
    map[ROOT := Directory([DirEntry("a", DIR, DirectoryKind), DirEntry("f", BELOW, FileKind)]), DIR := Directory([]),
        BELOW := NewFile()]
  }

  lemma DirAndFileSound()
    ensures Sound(DirAndFile())
  {
    hide Sound;
    var nodes0: Nodes := map[ROOT := Directory([])];
    var s0 := State(nodes0, map[], ROOT, map[], map[], {ROOT});
    FreshSound(ROOT);
    var nodes1 := nodes0[DIR := Directory([])][ROOT := Directory([] + [DirEntry("a", DIR, DirectoryKind)])];
    MadeDirSound(s0, ROOT, "a", DIR, nodes1);
    var s1 := MadeDir(s0, ROOT, "a", DIR);
    var es := [] + [DirEntry("a", DIR, DirectoryKind)];
    assert es[0].name == "a";
    var nodes2 := nodes1[BELOW := NewFile()][ROOT := Directory(es + [DirEntry("f", BELOW, FileKind)])];
    CreatedAll(s1, ROOT, "f", BELOW, 0, nodes2);
    var s2 := Created(s1, ROOT, "f", BELOW, 0);
    CloseStep(s2, 0);
    assert es + [DirEntry("f", BELOW, FileKind)] == DirAndFileNodes()[ROOT].entries;
    assert nodes2 == DirAndFileNodes();
    assert s2.views - {0} == map[];
    assert s2.parent == DirAndFile().parent && s2.known == DirAndFile().known;
    assert s2.files[BELOW := FileView(DiskView(nodes2, BELOW, []), [])] == DirAndFile().files;
  }

  /**
   `mv a f/c`, with f a file: the rename fails with ENOTDIR, and a is listed nowhere any more, though its slot
   is in use and the driver still knows it.
   */
  lemma RenameLosesNode(c: VnmContainer)
    requires c.Fits(Directory([DirEntry("f", BELOW, FileKind)]))
    ensures Sound(DirAndFile())
    ensures TargetStays(DirAndFileNodes(), Some(ROOT), "a", Some(BELOW), "c")
    ensures RenameResult(c, DirAndFileNodes(), Some(ROOT), "a", Some(BELOW), "c") == (Err(ENOTDIR), false)
    ensures var s' := HalfRenamed(DirAndFile(), ROOT, "a", BELOW, "c");
            && s'.nodes == map[ROOT := Directory([DirEntry("f", BELOW, FileKind)]), DIR := Directory([]),
                               BELOW := NewFile()]
            && Unreferenced(s'.nodes, DIR) && DIR in s'.known && !Sound(s')
  {
    hide Sound;
    DirAndFileSound();
    var s := DirAndFile();
    var es := [DirEntry("a", DIR, DirectoryKind), DirEntry("f", BELOW, FileKind)];
    assert s.nodes[ROOT] == Directory(es) && es[0].name == "a";
    assert Without(es, 0) == [DirEntry("f", BELOW, FileKind)];
    assert FindName(es, "a") == Some(0);
    assert Unlisted(s.nodes, ROOT, "a") == Directory([DirEntry("f", BELOW, FileKind)]);
    var s' := HalfRenamed(s, ROOT, "a", BELOW, "c");
    if Sound(s') { NamedByParent(s', DIR); }
  }

  /** In a sound state the parent of a directory names it. */
  lemma NamedByParent(s: State, x: nat)
    requires Sound(s) && x in s.nodes && s.nodes[x].Directory? && x != s.root
    ensures !Unreferenced(s.nodes, x)
  {
    hide FilesSound;
    hide HandlesSound;
    hide KnownSound;
    assert x in s.parent.Keys + {s.root};
    var d := s.parent[x];
    assert x in Listed(Dirs(s.nodes))[d];
    assert x in Refs(s.nodes[d]);
  }

  // ── A larger size ─────────────────────────────────────────────────────────

  /** A file of one byte set to two: no zero appears, and a read at the old end finds nothing in its chunk. */
  lemma ExtensionFallsShort(nodes: Nodes, f: nat)
    requires f in nodes && nodes[f] == File(1, [], None, [7])
    ensures DiskOk(nodes, f, []) && !DiskOk(StretchedNodes(nodes, f, 2), f, [])
    ensures Loadable(DiskView(nodes, f, []), nodes, 0) && |Chunk(DiskView(nodes, f, []), nodes, 0)| == 1
  {
    var h := DiskView(nodes, f, []);
    assert h.slotMap == [None];
    assert forall i: nat :: Need(i, 1) == if i == 0 then 1 else 0;
    assert DiskOk(nodes, f, []);
    StretchedIsDense(nodes, f, [], 2);
    assert Need(0, 2) == 2;
  }
}
