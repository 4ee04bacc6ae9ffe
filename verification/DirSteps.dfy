/**
 The driver's operations on values: what a lookup finds, what each directory operation makes of the
 state, and that the state stays sound.
 */
module DirSteps {
  import opened Wrappers
  import opened Bytes
  import opened VaultFs
  import opened Container
  import opened Handle
  import opened IndexChain
  import opened FileState
  import opened Fs
  import opened FsState

  /** At most `size` bytes from `offset`. */
  function Slice(b: seq<byte>, offset: nat, size: nat): seq<byte> {
    if offset >= |b| then [] else b[offset..Min(offset + size, |b|)]
  }

  /** The first entry with this name. */
  function FindName(es: seq<DirEntry>, name: string): (r: Option<nat>)
    ensures r.None? <==> !HasName(es, name)
    ensures r.Some? ==>
              r.value < |es| && es[r.value].name == name && forall i :: 0 <= i < r.value ==> es[i].name != name
    decreases |es|
  {
    if es == [] then None
    else if es[0].name == name then Some(0)
    else
      var t := FindName(es[1..], name);
      assert forall i :: 1 <= i < |es| ==> es[i] == es[1..][i - 1];
      assert forall i :: 0 <= i < |es| - 1 ==> es[1..][i] == es[i + 1];
      if t.Some? then Some(t.value + 1) else None
  }

  /** `Splice`, for any offset. */
  function Spliced(b: seq<byte>, offset: nat, d: seq<byte>): seq<byte> {
    if offset <= |b| then Splice(b, offset, d) else b
  }

  /**
   File f has become this long and shows what its chunks hold, which starts with what it was; every other
   file has its bytes.
   */
  ghost predicate Grown(s: State, s': State, f: nat, size: nat) {
    && OthersKept(s, s', f) && |s'.BytesOf(f)| == size && s.BytesOf(f) <= s'.BytesOf(f)
    && f in s.files && s'.BytesOf(f) == Contents(s.files[f].h, s.nodes, size)
  }

  function TotalOf(files: map<nat, FileView>, f: nat): nat {
    if f in files then files[f].h.total else 0
  }

  /** The chunks of file f hold this many bytes. */
  ghost predicate Reaches(files: map<nat, FileView>, f: nat, nodes: Nodes, size: nat) {
    f in files && Covers(files[f].h, nodes, size)
  }

  lemma OthersRefl(s: State, f: nat)
    ensures OthersKept(s, s, f)
  {
  }

  lemma WholeSlice(b: seq<byte>)
    ensures Slice(b, 0, |b|) == b
  {
  }

  lemma OthersTrans(s: State, s': State, s'': State, f: nat)
    requires OthersKept(s, s', f) && OthersKept(s', s'', f)
    ensures OthersKept(s, s'', f)
  {
  }

  /** Slots outside one file include every other file's. */
  lemma OutsideIsOthers(s: State, fh: nat, nodes': Nodes)
    requires Sound(s) && fh in s.views
    requires forall x :: x in s.nodes && x !in s.views[fh].Slots() ==> x in nodes' && nodes'[x] == s.nodes[x]
    ensures SlotsKept(s, nodes', s.views[fh].h.head)
  {
    hide FileOk;
    hide Footprint;
    hide FilesSound;
    hide TreeSound;
    var f := s.views[fh].h.head;
    forall g, x | g in s.files && g != f && x in s.files[g].Slots()
      ensures x in s.nodes && x in nodes' && nodes'[x] == s.nodes[x]
    {
      FileAt(s.nodes, s.files, g);
    }
  }

  /** The handle a fresh open builds: what is on disk, with chunk 0 preloaded if not empty. */
  function OpenedView(nodes: Nodes, head: nat, chain: seq<nat>): Handle {
    var d := DiskView(nodes, head, chain);
    if HeadData(nodes, head) != [] then d.(cache := map[0 := HeadData(nodes, head)]) else d
  }

  /** A closed file opened: its new handle is what the disk records. */
  function WithHandle(s: State, fh: nat, f: nat): State
    requires f in s.files
  {
    var v := FileView(OpenedView(s.nodes, f, s.files[f].chain), s.files[f].chain);
    s.(files := s.files[f := v], views := s.views[fh := v])
  }

  lemma OpenedViewIs(nodes: Nodes, head: nat, chain: seq<nat>, h: Handle)
    requires head in nodes && nodes[head].File?
    requires h ==
               Handle(head, nodes[head].totalSize, nodes[head].indexChain,
                      SlotMapOf(nodes[head].dataSlots + ChainIds(nodes, chain)),
                         if nodes[head].data != [] then map[0 := nodes[head].data] else map[], {}, false)
    ensures h == OpenedView(nodes, head, chain)
  {
  }

  /** A fresh handle is sound and shows the file. */
  lemma OpenedOk(nodes: Nodes, head: nat, chain: seq<nat>)
    requires DiskOk(nodes, head, chain)
    ensures var o := OpenedView(nodes, head, chain);
            && o.head == head && FileOk(o, nodes, chain)
            && FileBytes(o, nodes) == DiskBytes(nodes, head, chain)
            && Footprint(o, chain) == Footprint(DiskView(nodes, head, chain), chain)
            && (o.chain == None ==> Appending(o, nodes) && DiskBytes(nodes, head, []) == DiskBytes(nodes, head, chain))
  {
    var o, d := OpenedView(nodes, head, chain), DiskView(nodes, head, chain);
    forall i: nat ensures Chunk(o, nodes, i) == Chunk(d, nodes, i) && Stored(o, nodes, i) == Stored(d, nodes, i) {
    }
    SameContents(d, nodes, o, nodes, d.total);
    assert DataSlots(o) == DataSlots(d);
    if o.chain == None { CleanIsBehind(o, nodes, chain); }
  }

  /** A closed file of a sound state. */
  lemma ClosedParts(s: State, f: nat)
    requires Sound(s) && f in s.files && !s.IsOpen(f)
    ensures var chain := s.files[f].chain;
            && DiskOk(s.nodes, f, chain) && s.files[f].h == DiskView(s.nodes, f, chain)
            && s.BytesOf(f) == DiskBytes(s.nodes, f, chain)
            && AllIndexes(s.nodes, chain) && Walk(s.nodes, s.nodes[f].indexChain, chain)
  {
    FileAt(s.nodes, s.files, f);
  }

  /** The index chain that the head of file f records comes to an end. */
  ghost predicate ChainEnds(nodes: Nodes, f: nat) {
    f in nodes && nodes[f].File? && exists chain :: Walk(nodes, nodes[f].indexChain, chain)
  }

  /** A second handle of file f: what the disk records, or EIO if the chain leads to something else. */
  ghost predicate OpenedAgain(nodes: Nodes, f: nat, r: Result<nat, Errno>, v: FileView) {
    && f in nodes && nodes[f].File?
    && exists chain ::
         && Walk(nodes, nodes[f].indexChain, chain)
         && if AllIndexes(nodes, chain) then r.Ok? && v == FileView(OpenedView(nodes, f, chain), chain)
         else r == Err(EIO)
  }

  lemma HeadIsFile(s: State, f: nat)
    requires Sound(s) && f in s.files
    ensures f in s.nodes && s.nodes[f].File?
  {
    hide FileOk;
    hide Footprint;
    FileAt(s.nodes, s.files, f);
  }

  /** Soundness knows one handle per file. */
  lemma TwoHandles(s: State, s': State, fh: nat, f: nat)
    requires s.IsOpen(f) && fh !in s.views && s'.views.Keys == s.views.Keys + {fh} && s'.views[fh].h.head == f
    requires forall x :: x in s.views ==> s'.views[x] == s.views[x]
    ensures !Sound(s')
  {
    hide FilesSound;
    hide TreeSound;
    hide KnownSound;
    var x :| x in s.views && s.views[x].h.head == f;
    assert s'.views[x].h.head == s'.views[fh].h.head && x != fh;
  }

  /** A slot with an inode is a directory or a file head. */
  lemma KnownNode(s: State, x: nat)
    requires Sound(s) && x in s.known
    ensures x in s.nodes && (s.nodes[x].File? <==> x in s.files) && (s.nodes[x].Directory? || s.nodes[x].File?)
  {
  }

  /** The entries of a directory. */
  function EntriesOf(nodes: Nodes, d: nat): seq<DirEntry> {
    if d in nodes && nodes[d].Directory? then nodes[d].entries else []
  }

  /** Directory d with one more entry. */
  function WithEntry(nodes: Nodes, d: nat, e: DirEntry): Node {
    Directory(EntriesOf(nodes, d) + [e])
  }

  /** Why no entry of this name can be added: no such inode, not a directory, or the name is taken. */
  function AddRefusal(nodes: Nodes, d: Option<nat>, name: string): Option<Errno> {
    if d.None? then Some(ENOENT)
    else if !(d.value in nodes && nodes[d.value].Directory?) then Some(ENOTDIR)
    else if FindName(nodes[d.value].entries, name).Some? then Some(EEXIST)
    else None
  }

  /** The slot that a new node is written to: the last of a descending free list. */
  function NextFree(free: seq<nat>): nat {
    if free == [] then 0 else free[|free| - 1]
  }

  /**
   What writing a new node and listing it in d yields: the parent must be known, a slot free and the node
   fit it, then the entry must be accepted, and at last the longer directory fit its slot.
   */
  ghost function ListingResult(c: VnmContainer, nodes: Nodes, free: seq<nat>, d: Option<nat>, node: Node, name: string,
                               kind: NodeKind): Result<nat, Errno> {
    if d.None? then Err(ENOENT)
    else if free == [] || !c.Fits(node) then Err(EIO)
    else if AddRefusal(nodes, d, name).Some? then Err(AddRefusal(nodes, d, name).value)
    else if !c.Fits(WithEntry(nodes, d.value, DirEntry(name, NextFree(free), kind))) then Err(EIO)
    else Ok(NextFree(free))
  }

  lemma ListingFacts(c: VnmContainer, nodes: Nodes, free: seq<nat>, d: Option<nat>, node: Node, name: string,
                     kind: NodeKind)
    ensures d.None? ==> ListingResult(c, nodes, free, d, node, name, kind) == Err(ENOENT)
    ensures ListingResult(c, nodes, free, d, node, name, kind).Ok? ==>
              && d.Some? && d.value in nodes && nodes[d.value].Directory?
              && !HasName(EntriesOf(nodes, d.value), name)
  {
  }

  /** An empty directory x listed in d. */
  function MadeDir(s: State, d: nat, name: string, x: nat): State {
    s.(nodes := s.nodes[x := Directory([])][d := Directory(EntriesOf(s.nodes, d) + [DirEntry(name, x, DirectoryKind)])],
       parent := s.parent[x := d], known := s.known + {x})
  }

  lemma MadeDirSound(s: State, d: nat, name: string, x: nat, nodes': Nodes)
    requires Sound(s) && d in s.nodes && s.nodes[d].Directory? && !HasName(EntriesOf(s.nodes, d), name) && x !in s.nodes
    requires nodes' ==
               s.nodes[x := Directory([])][d := Directory(s.nodes[d].entries + [DirEntry(name, x, DirectoryKind)])]
    ensures Sound(MadeDir(s, d, name, x))
    ensures MadeDir(s, d, name, x) == State(nodes', s.files, s.root, s.parent[x := d], s.views, s.known + {x})
  {
    hide Sound;
    MkdirStep(s, d, name, x, nodes');
  }

  /** The slot listed under a name. */
  function SlotNamed(nodes: Nodes, d: nat, name: string): nat {
    var es := EntriesOf(nodes, d);
    if FindName(es, name).Some? then es[FindName(es, name).value].slot else d
  }

  function SlotOr0(o: Option<nat>): nat {
    if o.Some? then o.value else 0
  }

  /** The slot listed under a name in the directory of an inode, or why there is none. */
  function ListedAt(nodes: Nodes, d: Option<nat>, name: string): Result<nat, Errno> {
    if d.None? then Err(ENOENT)
    else if !(d.value in nodes && nodes[d.value].Directory?) then Err(ENOTDIR)
    else if FindName(nodes[d.value].entries, name).None? then Err(ENOENT)
    else Ok(SlotNamed(nodes, d.value, name))
  }

  /** Why rmdir refuses: no such entry, not a directory, or not empty. */
  function RmdirRefusal(nodes: Nodes, d: Option<nat>, name: string): Option<Errno> {
    var l := ListedAt(nodes, d, name);
    if l.Err? then Some(l.error)
    else if !(l.value in nodes && nodes[l.value].Directory?) then Some(ENOTDIR)
    else if nodes[l.value].entries != [] then Some(ENOTEMPTY)
    else None
  }

  /** A directory without its entry of that name. */
  function Unlisted(nodes: Nodes, d: nat, name: string): (r: Node)
    ensures r.Directory?
  {
    var es := EntriesOf(nodes, d);
    Directory(if FindName(es, name).Some? then Without(es, FindName(es, name).value) else es)
  }

  /** The directory listed in d under that name unlisted and gone. */
  function RemovedDir(s: State, d: nat, name: string): State {
    var x := SlotNamed(s.nodes, d, name);
    s.(nodes := s.nodes[d := Unlisted(s.nodes, d, name)] - {x}, parent := s.parent - {x}, known := s.known - {x})
  }

  lemma RemovedDirSound(s: State, d: nat, name: string, x: nat)
    requires Sound(s) && ListedAt(s.nodes, Some(d), name) == Ok(x)
    requires x in s.nodes && s.nodes[x] == Directory([])
    ensures x in s.nodes[d := Unlisted(s.nodes, d, name)]
    ensures Sound(RemovedDir(s, d, name))
    ensures RemovedDir(s, d, name) ==
              State(s.nodes[d := Unlisted(s.nodes, d, name)] - {x}, s.files, s.root, s.parent - {x}, s.views,
                    s.known - {x})
  {
    hide Sound;
    hide HasName;
    RmdirStep(s, d, FindName(EntriesOf(s.nodes, d), name).value, s.nodes[d := Unlisted(s.nodes, d, name)] - {x});
  }

  /** Every entry lists a directory or a file head, never the root, in its parent. */
  lemma ListedNode(s: State, d: Option<nat>, name: string)
    requires Sound(s) && ListedAt(s.nodes, d, name).Ok?
    ensures var x := ListedAt(s.nodes, d, name).value;
            && x == SlotNamed(s.nodes, d.value, name)
            && x in s.nodes && (s.nodes[x].Directory? || s.nodes[x].File?) && (s.nodes[x].File? <==> x in s.files)
            && x != s.root && x in s.parent && s.parent[x] == d.value
  {
    hide FileOk;
    hide Footprint;
    hide NoLeak;
    hide HasName;
    var dirs, x := Dirs(s.nodes), SlotNamed(s.nodes, d.value, name);
    assert x in EntrySlots(dirs[d.value]) && EntrySlots(dirs[d.value]) == Listed(dirs)[d.value];
    assert x in s.parent;
  }

  /** A new empty file f listed in d and opened as fh. */
  function Created(s: State, d: nat, name: string, f: nat, fh: nat): State {
    AfterCreate(s, d, f, fh,
                s.nodes[f := NewFile()][d := Directory(EntriesOf(s.nodes, d) + [DirEntry(name, f, FileKind)])])
  }

  lemma CreatedAll(s: State, d: nat, name: string, f: nat, fh: nat, nodes': Nodes)
    requires Sound(s) && d in s.nodes && s.nodes[d].Directory? && !HasName(EntriesOf(s.nodes, d), name) && f !in s.nodes
    requires fh !in s.views
    requires nodes' == s.nodes[f := NewFile()][d := Directory(s.nodes[d].entries + [DirEntry(name, f, FileKind)])]
    ensures Sound(Created(s, d, name, f, fh)) && OthersKept(s, Created(s, d, name, f, fh), f)
    ensures Created(s, d, name, f, fh).BytesOf(f) == []
    ensures Created(s, d, name, f, fh) ==
              State(nodes', s.files[f := NewView(f)], s.root, s.parent[f := d], s.views[fh := NewView(f)],
                    s.known + {f})
    ensures Appending(NewView(f).h, nodes') && DiskBytes(nodes', f, []) == []
  {
    hide Sound;
    hide HasName;
    hide OthersKept;
    NewFileOk(nodes', f);
    CleanIsBehind(NewView(f).h, nodes', []);
    CreateStep(s, d, name, f, fh, nodes');
  }

  // ── Unlinking ─────────────────────────────────────────────────────────────

  /** The slots unlink frees: the head, the data slots it lists itself, and the index chain. */
  function Listing(nodes: Nodes, x: nat, chain: seq<nat>): set<nat> {
    {x} + (if x in nodes && nodes[x].File? then SlotSet(nodes[x].dataSlots) else {}) + SlotSet(chain)
  }

  /** Used slots that are neither a directory nor owned by a file. */
  function Orphans(s: State): set<nat> {
    s.nodes.Keys - Dirs(s.nodes).Keys - FileSlots(s.files)
  }

  /** The data slots that only the index chain of file x lists. */
  function OverflowSlots(s: State, x: nat): set<nat> {
    if x in s.files then SlotSet(ChainIds(s.nodes, s.files[x].chain)) else {}
  }

  /** File x gone with its handles and its listed slots. */
  function Discarded(s: State, x: nat, chain: seq<nat>): State {
    AfterUnlink(s, x, s.nodes - Listing(s.nodes, x, chain))
  }

  /** File x unlisted and discarded. */
  function Unlinked(s: State, d: nat, name: string, x: nat): State
    requires x in s.files
  {
    Discarded(s.(nodes := s.nodes[d := Unlisted(s.nodes, d, name)]), x, s.files[x].chain)
  }

  lemma UnlinkedIs(s: State, d: nat, name: string, x: nat)
    requires x in s.files && x != d
    ensures Unlinked(s, d, name, x) ==
              AfterUnlink(s, x, s.nodes[d := Unlisted(s.nodes, d, name)] - Listing(s.nodes, x, s.files[x].chain))
  {
  }

  /** The head's own slot lists are distinct slots in use. */
  ghost predicate DirectOk(nodes: Nodes, x: nat, chain: seq<nat>) {
    && x in nodes && nodes[x].File? && Walk(nodes, nodes[x].indexChain, chain)
    && (forall i, j :: 0 <= i < j < |nodes[x].dataSlots| ==> nodes[x].dataSlots[i] != nodes[x].dataSlots[j])
    && (forall i :: 0 <= i < |nodes[x].dataSlots| ==>
        nodes[x].dataSlots[i] in nodes && nodes[nodes[x].dataSlots[i]].FileData?)
    && (forall t :: t in chain ==> t in nodes && nodes[t].FileIndex?)
  }

  lemma ChainStays(nodes: Nodes, x: nat, chain: seq<nat>)
    requires DirectOk(nodes, x, chain)
    ensures Walk(nodes - SlotSet(nodes[x].dataSlots), nodes[x].indexChain, chain)
    ensures SlotSet(nodes[x].dataSlots) <= nodes.Keys && x !in SlotSet(nodes[x].dataSlots) && x !in SlotSet(chain)
  {
    WalkFrame(nodes, nodes - SlotSet(nodes[x].dataSlots), nodes[x].indexChain, chain);
  }

  /** The data slots of a slot map made of two id lists. */
  lemma TwoLists(h: Handle, nodes: Nodes, ids: seq<nat>, over: seq<nat>)
    requires SlotsOk(h, nodes) && h.slotMap == SlotMapOf(ids + over)
    ensures DataSlots(h) == SlotSet(ids) + SlotSet(over) && SlotSet(ids) !! SlotSet(over)
    ensures forall i, j :: 0 <= i < j < |ids| ==> ids[i] != ids[j]
    ensures forall t :: t in SlotSet(ids) + SlotSet(over) ==> t in nodes && nodes[t].FileData?
  {
    forall i | 0 <= i < |ids| ensures h.slotMap[i + 1] == Some(ids[i]) {
    }
    forall i | 0 <= i < |over| ensures h.slotMap[|ids| + i + 1] == Some(over[i]) {
      assert (ids + over)[|ids| + i] == over[i];
    }
    forall t | t in DataSlots(h) ensures t in SlotSet(ids) + SlotSet(over) {
      var i :| 0 <= i < |h.slotMap| && h.slotMap[i] == Some(t);
      assert t == (ids + over)[i - 1];
    }
  }

  /** A file in step with its head owns the slots listed there and the overflow slots. */
  lemma SavedSlots(h: Handle, nodes: Nodes, chain: seq<nat>)
    requires FileOk(h, nodes, chain) && Recorded(h, nodes, chain)
    ensures DirectOk(nodes, h.head, chain)
    ensures Footprint(h, chain) == Listing(nodes, h.head, chain) + SlotSet(ChainIds(nodes, chain))
    ensures Listing(nodes, h.head, chain) !! SlotSet(ChainIds(nodes, chain))
  {
    hide Dense;
    hide ChainIds;
    hide Walk;
    DenseSlots(h, nodes);
    var ids, over := nodes[h.head].dataSlots, ChainIds(nodes, chain);
    assert h.slotMap == SlotMapOf(ids + over);
    TwoLists(h, nodes, ids, over);
    forall t | t in SlotSet(chain) ensures t in nodes && nodes[t].FileIndex? {
      assert t in chain;
    }
    forall i | 0 <= i < |ids| ensures ids[i] in SlotSet(ids) {
    }
  }

  lemma DenseSlots(h: Handle, nodes: Nodes)
    requires Dense(h, nodes)
    ensures SlotsOk(h, nodes) && h.head in nodes && nodes[h.head].File?
  {
  }

  lemma ListedSlots(s: State, x: nat)
    requires Sound(s) && x in s.files && Recorded(s.files[x].h, s.nodes, s.files[x].chain)
    ensures DirectOk(s.nodes, x, s.files[x].chain)
    ensures s.files[x].Slots() == Listing(s.nodes, x, s.files[x].chain) + OverflowSlots(s, x)
    ensures Listing(s.nodes, x, s.files[x].chain) !! OverflowSlots(s, x)
  {
    hide FileOk;
    hide Footprint;
    hide Listing;
    hide ChainIds;
    FileAt(s.nodes, s.files, x);
    SavedSlots(s.files[x].h, s.nodes, s.files[x].chain);
  }

  /** What the head of file x lists is in use, without repetition, and the file's own. */
  ghost predicate ListsOwn(s: State, x: nat) {
    && x in s.files && DirectOk(s.nodes, x, s.files[x].chain)
    && Listing(s.nodes, x, s.files[x].chain) <= s.files[x].Slots()
  }

  /** The slots of file x that neither its head nor its index chain accounts for on disk. */
  function Unrecorded(s: State, x: nat): set<nat> {
    if x in s.files then s.files[x].Slots() - Listing(s.nodes, x, s.files[x].chain) else {}
  }

  /** With the recorded slot map these are the slots that only the index blocks list. */
  lemma RecordedListsOwn(s: State, x: nat)
    requires Sound(s) && x in s.files && Recorded(s.files[x].h, s.nodes, s.files[x].chain)
    ensures ListsOwn(s, x) && Unrecorded(s, x) == OverflowSlots(s, x)
  {
    hide Sound;
    hide Footprint;
    hide Listing;
    hide OverflowSlots;
    hide DirectOk;
    ListedSlots(s, x);
  }

  /** Everything unlink promises for a file, on values. */
  lemma UnlinkedAll(s: State, d: nat, name: string, x: nat)
    requires Sound(s) && ListedAt(s.nodes, Some(d), name) == Ok(x) && ListsOwn(s, x)
    ensures var nodes' := s.nodes[d := Unlisted(s.nodes, d, name)];
            && DirectOk(nodes', x, s.files[x].chain)
            && Listing(nodes', x, s.files[x].chain) == Listing(s.nodes, x, s.files[x].chain)
            && Unlinked(s, d, name, x) == Discarded(s.(nodes := nodes'), x, s.files[x].chain)
    ensures OthersKept(s, Unlinked(s, d, name, x), x)
    ensures Orphans(Unlinked(s, d, name, x)) == Unrecorded(s, x)
    ensures Unrecorded(s, x) == {} ==> Sound(Unlinked(s, d, name, x))
  {
    hide Sound;
    hide HasName;
    hide FindName;
    hide Orphans;
    hide Footprint;
    hide ListedAt;
    hide Unlisted;
    ListedNode(s, Some(d), name);
    DirIs(s.nodes, d, name);
    DirectFrame(s.nodes, d, Unlisted(s.nodes, d, name).entries, x, s.files[x].chain);
    UnlinkedOthers(s, d, name, x);
    UnlinkedOrphans(s, d, name, x);
    if Unrecorded(s, x) == {} { UnlinkedSound(s, d, name, x); }
  }

  /**
   A directory unlisted and freed: no file changes. Unless it listed itself, the state is sound exactly if
   the directory was empty; otherwise what it listed is listed nowhere.
   */
  lemma UnlinkedDir(s: State, d: nat, name: string, x: nat)
    requires Sound(s) && ListedAt(s.nodes, Some(d), name) == Ok(x) && x in s.nodes && s.nodes[x].Directory?
    ensures x == SlotNamed(s.nodes, d, name) && x in s.nodes[d := Unlisted(s.nodes, d, name)]
    ensures OthersKept(s, RemovedDir(s, d, name), x)
    ensures x != d ==> (Sound(RemovedDir(s, d, name)) <==> s.nodes[x].entries == [])
  {
    hide Sound;
    hide FindName;
    hide HasName;
    hide Unlisted;
    hide FileBytes;
    ListedNode(s, Some(d), name);
    DirsOnlyKeep(s, RemovedDir(s, d, name).nodes, x);
    if x != d {
      if s.nodes[x].entries == [] { RemovedDirSound(s, d, name, x); } else { ListedNowhere(s, d, name, x); }
    }
  }

  lemma DirsOnlyKeep(s: State, nodes': Nodes, x: nat)
    requires Sound(s) && x !in s.files
    requires forall y :: y in s.nodes && !s.nodes[y].Directory? ==> y in nodes' && nodes'[y] == s.nodes[y]
    ensures forall g :: g in s.files ==> FileBytes(s.files[g].h, nodes') == FileBytes(s.files[g].h, s.nodes)
  {
    hide FileOk;
    hide FileView.Slots;
    hide Sound;
    hide Footprint;
    hide FileBytes;
    hide DiskView;
    hide FilesSound;
    hide TreeSound;
    hide Dirs;
    hide Heads;
    forall g, y | g in s.files && y in s.files[g].Slots()
      ensures y in s.nodes && y in nodes' && nodes'[y] == s.nodes[y]
    {
      FileSlotsAreNoDirs(s, g);
    }
    FilesOf(s);
    KeptElsewhere(s, nodes', x);
  }

  lemma FilesOf(s: State)
    requires Sound(s)
    ensures FilesSound(s.nodes, s.files) && TreeSound(Dirs(s.nodes), Heads(s.nodes), s.root, s.parent)
  {
  }

  lemma ListedNowhere(s: State, d: nat, name: string, x: nat)
    requires Sound(s) && x != d && x in s.parent && s.parent[x] == d && x == SlotNamed(s.nodes, d, name)
    requires x in s.nodes && s.nodes[x].Directory? && s.nodes[x].entries != []
    ensures !Sound(RemovedDir(s, d, name))
  {
    hide Sound;
    hide Unlisted;
    hide SlotNamed;
    hide DistinctEntries;
    hide KindsRight;
    EntryNode(s, x, 0);
    ParentGone(RemovedDir(s, d, name), s.nodes[x].entries[0].slot, x);
  }

  /** Nothing can be listed in what is no directory. */
  lemma ParentGone(s: State, y: nat, p: nat)
    requires y in s.parent && s.parent[y] == p && p !in s.nodes
    ensures !Sound(s)
  {
    hide FilesSound;
    hide HandlesSound;
    hide KnownSound;
  }

  lemma DirIs(nodes: Nodes, d: nat, name: string)
    requires ListedAt(nodes, Some(d), name).Ok?
    ensures d in nodes && nodes[d].Directory? && Unlisted(nodes, d, name).Directory?
  {
  }

  lemma DirectFrame(nodes: Nodes, d: nat, es: seq<DirEntry>, x: nat, chain: seq<nat>)
    requires DirectOk(nodes, x, chain) && d in nodes && nodes[d].Directory?
    ensures DirectOk(nodes[d := Directory(es)], x, chain)
    ensures Listing(nodes[d := Directory(es)], x, chain) == Listing(nodes, x, chain)
  {
    WalkFrame(nodes, nodes[d := Directory(es)], nodes[x].indexChain, chain);
  }

  lemma UnlinkedOthers(s: State, d: nat, name: string, x: nat)
    requires Sound(s) && d in s.nodes && s.nodes[d].Directory? && x in s.files
    requires Listing(s.nodes, x, s.files[x].chain) <= s.files[x].Slots()
    ensures OthersKept(s, Unlinked(s, d, name, x), x)
  {
    hide Sound;
    hide FileBytes;
    hide Unlisted;
    hide Listing;
    hide SlotsKept;
    var freed := Listing(s.nodes, x, s.files[x].chain);
    FileSlotsAreNoDirs(s, x);
    HeadInSlots(s, x);
    UnlinkedIs(s, d, name, x);
    DroppedOthers(s, s.nodes[d := Unlisted(s.nodes, d, name)] - freed, x, freed);
  }

  /** Directories changed and some slots of one file freed: every other file keeps its slots and bytes. */
  lemma DroppedOthers(s: State, nodes': Nodes, x: nat, freed: set<nat>)
    requires Sound(s) && x in s.files && freed <= s.files[x].Slots()
    requires forall y :: y in s.nodes && !s.nodes[y].Directory? && y !in freed ==>
               y in nodes' && nodes'[y] == s.nodes[y]
    ensures SlotsKept(s, nodes', x)
    ensures forall g :: g in s.files && g != x ==> FileBytes(s.files[g].h, nodes') == FileBytes(s.files[g].h, s.nodes)
  {
    hide FileOk;
    hide Footprint;
    hide FilesSound;
    hide FileBytes;
    hide TreeSound;
    hide HandlesSound;
    hide DiskView;
    forall g, y | g in s.files && g != x && y in s.files[g].Slots()
      ensures y in s.nodes && y in nodes' && nodes'[y] == s.nodes[y]
    {
      FileAt(s.nodes, s.files, g);
      FileAt(s.nodes, s.files, x);
    }
    KeptElsewhere(s, nodes', x);
  }

  lemma UnlinkedOrphans(s: State, d: nat, name: string, x: nat)
    requires Sound(s) && d in s.nodes && s.nodes[d].Directory? && x in s.files
    requires Listing(s.nodes, x, s.files[x].chain) <= s.files[x].Slots()
    ensures Orphans(Unlinked(s, d, name, x)) == Unrecorded(s, x)
  {
    hide Sound;
    hide Unlisted;
    hide Listing;
    hide FileSlots;
    hide Footprint;
    var freed := Listing(s.nodes, x, s.files[x].chain);
    var s' := Unlinked(s, d, name, x);
    FileSlotsAreNoDirs(s, x);
    HeadInSlots(s, x);
    UnlinkedIs(s, d, name, x);
    assert s'.nodes.Keys == s.nodes.Keys - freed;
    assert Dirs(s'.nodes).Keys == Dirs(s.nodes).Keys;
    DroppedOrphans(s, s'.nodes, x, freed);
  }

  lemma FileSlotsAreNoDirs(s: State, x: nat)
    requires Sound(s) && x in s.files
    ensures forall y :: y in s.files[x].Slots() ==> y in s.nodes && !s.nodes[y].Directory?
  {
    hide FileOk;
    hide Footprint;
    hide FilesSound;
    FileAt(s.nodes, s.files, x);
  }

  /** A file dropped with only some of its slots freed orphans the others. */
  lemma DroppedOrphans(s: State, nodes': Nodes, x: nat, freed: set<nat>)
    requires Sound(s) && x in s.files && freed <= s.files[x].Slots()
    requires nodes'.Keys == s.nodes.Keys - freed && Dirs(nodes').Keys == Dirs(s.nodes).Keys
    ensures nodes'.Keys - Dirs(nodes').Keys - FileSlots(s.files - {x}) == s.files[x].Slots() - freed
  {
    hide FileOk;
    hide Footprint;
    hide FileSlots;
    hide TreeSound;
    hide HandlesSound;
    FileAt(s.nodes, s.files, x);
    FileSlotsDrop(s.files, x);
    var over := s.files[x].Slots() - freed;
    assert freed + over == s.files[x].Slots();
    OrphanAlgebra(s.nodes.Keys, Dirs(s.nodes).Keys, FileSlots(s.files), freed, over);
  }

  lemma OrphanAlgebra(used: set<nat>, dirs: set<nat>, owned: set<nat>, freed: set<nat>, over: set<nat>)
    requires used == dirs + owned && freed + over <= owned && freed !! over && (freed + over) !! dirs
    ensures (used - freed) - dirs - (owned - (freed + over)) == over
  {
  }

  lemma FileSlotsDrop(files: map<nat, FileView>, f: nat)
    requires f in files
    requires forall g :: g in files && g != f ==> files[g].Slots() !! files[f].Slots()
    ensures FileSlots(files - {f}) == FileSlots(files) - files[f].Slots() && files[f].Slots() <= FileSlots(files)
  {
    hide Footprint;
    forall s | s in FileSlots(files) - files[f].Slots() ensures s in FileSlots(files - {f}) {
      var g :| g in files && s in files[g].Slots();
      assert g in files - {f} && s in (files - {f})[g].Slots();
    }
    forall s | s in FileSlots(files - {f}) ensures s in FileSlots(files) - files[f].Slots() {
      var g :| g in files - {f} && s in (files - {f})[g].Slots();
      assert s in files[g].Slots();
    }
  }

  lemma UnlinkedSound(s: State, d: nat, name: string, x: nat)
    requires Sound(s) && ListedAt(s.nodes, Some(d), name) == Ok(x) && x in s.files
    requires s.files[x].Slots() == Listing(s.nodes, x, s.files[x].chain)
    ensures Sound(Unlinked(s, d, name, x))
  {
    hide Sound;
    hide HasName;
    hide Footprint;
    hide Listing;
    FileSlotsAreNoDirs(s, x);
    HeadInSlots(s, x);
    UnlinkedIs(s, d, name, x);
    UnlinkStep(s, d, FindName(EntriesOf(s.nodes, d), name).value, Unlinked(s, d, name, x).nodes);
  }

  // ── Renaming ──────────────────────────────────────────────────────────────

  /** The node that a rename onto this name replaces, if there is one. */
  function Replaced(nodes: Nodes, d': nat, newName: string): set<nat> {
    if FindName(EntriesOf(nodes, d'), newName).Some? then {SlotNamed(nodes, d', newName)} else {}
  }

  /** Directory d without the entry that is to be moved. */
  function MovedOut(nodes: Nodes, d: nat, name: string): Nodes {
    nodes[d := Unlisted(nodes, d, name)]
  }

  /** The new parent does not list itself under the new name. */
  ghost predicate TargetStays(nodes: Nodes, d: Option<nat>, name: string, d': Option<nat>, newName: string) {
    d.Some? && d'.Some? && ListedAt(nodes, d, name).Ok? ==>
      d'.value !in Replaced(MovedOut(nodes, d.value, name), d'.value, newName)
  }

  function KindOf(nodes: Nodes, x: nat): NodeKind {
    if x in nodes && nodes[x].Directory? then DirectoryKind else FileKind
  }

  /** Directory d' listing x under the name, in place of what was listed there. */
  function PlacedIn(nodes: Nodes, x: nat, d': nat, newName: string): Node {
    Directory(Unlisted(nodes, d', newName).entries + [DirEntry(newName, x, KindOf(nodes, x))])
  }

  /** Node x listed in d' under the name, the nodes in `gone` freed and forgotten. */
  function Placed(s: State, x: nat, d': nat, newName: string, gone: set<nat>): State {
    State((s.nodes - gone)[d' := PlacedIn(s.nodes, x, d', newName)],
          s.files - gone, s.root, (s.parent - gone)[x := d'], s.views, s.known - gone)
  }

  /** The node listed in d under `name` moved to d' under `newName`, in place of what was listed there. */
  function Renamed(s: State, d: nat, name: string, d': nat, newName: string): State {
    var mid := MovedOut(s.nodes, d, name);
    Placed(s.(nodes := mid), SlotNamed(s.nodes, d, name), d', newName, Replaced(mid, d', newName))
  }

  /**
   Why a rename fails, if it does, and whether it is before anything was written: the old parent must fit
   without the entry; by then the node is unlisted, and it stays so if the new parent is no directory or
   does not fit its new entry.
   */
  ghost function RenameResult(c: VnmContainer, nodes: Nodes, d: Option<nat>, name: string, d': Option<nat>,
                              newName: string): (r: (Result<(), Errno>, bool))
  {
    var x := ListedAt(nodes, d, name);
    if d.None? || d'.None? then (Err(ENOENT), true)
    else if x.Err? then (Err(x.error), true)
    else if !c.Fits(Unlisted(nodes, d.value, name)) then (Err(EIO), true)
    else
      var mid := MovedOut(nodes, d.value, name);
      if !(d'.value in mid && mid[d'.value].Directory?) then (Err(ENOTDIR), false)
      else if !c.Fits(PlacedIn(mid, x.value, d'.value, newName)) then (Err(EIO), false)
      else (Ok(()), false)
  }

  /** After a rename that failed half way: the node is listed nowhere, and what had the new name is gone. */
  function HalfRenamed(s: State, d: nat, name: string, d': nat, newName: string): State {
    var mid := MovedOut(s.nodes, d, name); var gone := Replaced(mid, d', newName);
    s.(nodes := mid - gone, known := s.known - gone)
  }

  lemma RenameTarget(s: State, d: nat, name: string, d': nat, newName: string)
    requires Sound(s) && ListedAt(s.nodes, Some(d), name).Ok?
    ensures var x := SlotNamed(s.nodes, d, name); var mid := MovedOut(s.nodes, d, name);
            && ListedAt(s.nodes, Some(d), name) == Ok(x) && x in mid && x !in Replaced(mid, d', newName)
            && (mid[x].Directory? <==> s.nodes[x].Directory?)
            && (d' in mid && mid[d'].Directory? <==> d' in s.nodes && s.nodes[d'].Directory?)
            && forall v :: v in Replaced(mid, d', newName) ==>
              v == SlotNamed(mid, d', newName) && v in mid && v in s.nodes && (v in s.files <==> s.nodes[v].File?)
              && (s.nodes[v].Directory? || s.nodes[v].File?) && d' in s.nodes && s.nodes[d'].Directory?
              && v in s.parent && s.parent[v] == d' && v != x
  {
    hide Sound;
    hide FindName;
    hide HasName;
    hide Unlisted;
    ListedNode(s, Some(d), name);
    DirIs(s.nodes, d, name);
    var mid := MovedOut(s.nodes, d, name);
    if Replaced(mid, d', newName) != {} {
      assert d' in s.nodes && s.nodes[d'].Directory? by { FoundIs(EntriesOf(mid, d'), newName); }
      var kv := OverPosition(s, d, name, d', newName);
      EntryNode(s, d', kv);
    }
  }

  lemma EntryNode(s: State, d: nat, k: nat)
    requires Sound(s) && k < |EntriesOf(s.nodes, d)|
    ensures var v := EntriesOf(s.nodes, d)[k].slot;
            && v in s.nodes && (s.nodes[v].Directory? || s.nodes[v].File?) && (s.nodes[v].File? <==> v in s.files)
            && v in s.parent && s.parent[v] == d
  {
    hide FileOk;
    hide Footprint;
    hide NoLeak;
    hide HasName;
    var dirs, x := Dirs(s.nodes), EntriesOf(s.nodes, d)[k].slot;
    assert x in EntrySlots(dirs[d]) && EntrySlots(dirs[d]) == Listed(dirs)[d];
    assert x in s.parent;
  }

  /**
   Everything rename promises, on values: only the head of a replaced file is freed, and of a replaced
   directory only its own slot. The state is sound again if and only if nothing else had to go.
   */
  lemma RenamedAll(s: State, d: nat, name: string, d': nat, newName: string)
    requires Sound(s) && ListedAt(s.nodes, Some(d), name).Ok? && d' in s.nodes && s.nodes[d'].Directory?
    requires d' !in Replaced(MovedOut(s.nodes, d, name), d', newName)
    ensures var s' := Renamed(s, d, name, d', newName);
            && (Replaced(MovedOut(s.nodes, d, name), d', newName) == {} ==> Sound(s'))
            && forall v :: v in Replaced(MovedOut(s.nodes, d, name), d', newName) ==>
              && OthersKept(s, s', v)
              && (v in s.files ==> Orphans(s') == s.files[v].Slots() - {v})
              && (v in s.files && !s.IsOpen(v) ==> (Sound(s') <==> s.files[v].Slots() == {v}))
              && (v !in s.files && v != d ==> (Sound(s') <==> EntriesOf(s.nodes, v) == []))
  {
    hide Sound;
    hide HasName;
    hide FindName;
    hide Orphans;
    hide OthersKept;
    hide Renamed;
    hide Unlisted;
    hide FileView.Slots;
    RenameTarget(s, d, name, d', newName);
    var mid := MovedOut(s.nodes, d, name);
    if Replaced(mid, d', newName) == {} {
      RenamedFree(s, d, name, d', newName);
    } else if SlotNamed(mid, d', newName) in s.files {
      RenamedOver(s, d, name, d', newName);
    } else {
      RenamedOverDir(s, d, name, d', newName);
    }
  }

  lemma RenamedFree(s: State, d: nat, name: string, d': nat, newName: string)
    requires Sound(s) && ListedAt(s.nodes, Some(d), name).Ok? && d' in s.nodes && s.nodes[d'].Directory?
    requires Replaced(MovedOut(s.nodes, d, name), d', newName) == {}
    ensures Sound(Renamed(s, d, name, d', newName))
  {
    hide Sound;
    hide HasName;
    hide FindName;
    ListedNode(s, Some(d), name);
    var k := FindName(EntriesOf(s.nodes, d), name).value;
    FoundIs(EntriesOf(s.nodes, d), name);
    EntryKind(s, d, k);
    var mid := MovedOut(s.nodes, d, name);
    FoundIs(EntriesOf(mid, d'), newName);
    assert mid - {} == mid && s.files - {} == s.files && s.parent - {} == s.parent && s.known - {} == s.known;
    RenameStep(s, d, k, d', newName, Renamed(s, d, name, d', newName).nodes);
  }

  lemma WithoutTwice(es: seq<DirEntry>, k: nat, v: nat)
    requires k < |es| && v < |es| && k != v
    ensures Without(Without(es, k), if v < k then v else v - 1) == Without(Without(es, v), if k < v then k else k - 1)
    ensures Without(es, k)[if v < k then v else v - 1] == es[v]
  {
  }

  /** Names are distinct, so taking out one entry frees its name. */
  lemma NameGone(es: seq<DirEntry>, v: nat)
    requires DistinctEntries(es) && v < |es|
    ensures !HasName(Without(es, v), es[v].name)
  {
    var w := Without(es, v);
    forall i | 0 <= i < |w| ensures w[i].name != es[v].name {
      assert w[i] == es[if i < v then i else i + 1];
    }
  }

  lemma StillGone(es: seq<DirEntry>, k: nat, name: string)
    requires k < |es| && !HasName(es, name)
    ensures !HasName(Without(es, k), name)
  {
    var w := Without(es, k);
    forall i | 0 <= i < |w| ensures w[i].name != name {
      assert w[i] == es[if i < k then i else i + 1];
    }
  }

  /** Entries of one directory are distinct, and two directories list nothing in common. */
  lemma EntriesApart(s: State, d: nat, d': nat)
    requires Sound(s) && d in s.nodes && s.nodes[d].Directory? && d' in s.nodes && s.nodes[d'].Directory?
    ensures DistinctEntries(EntriesOf(s.nodes, d))
    ensures d != d' ==> forall i, j :: 0 <= i < |EntriesOf(s.nodes, d)| && 0 <= j < |EntriesOf(s.nodes, d')| ==>
              EntriesOf(s.nodes, d)[i].slot != EntriesOf(s.nodes, d')[j].slot
  {
    hide FilesSound;
    hide HandlesSound;
    hide KnownSound;
    var es, es' := EntriesOf(s.nodes, d), EntriesOf(s.nodes, d');
    assert es == Dirs(s.nodes)[d] && es' == Dirs(s.nodes)[d'];
    if d != d' {
      forall i, j | 0 <= i < |es| && 0 <= j < |es'| ensures es[i].slot != es'[j].slot {
        assert es[i].slot in EntrySlots(es) && es'[j].slot in EntrySlots(es');
        ListedHere(Dirs(s.nodes), s.parent, d, es[i].slot);
      }
    }
  }

  /** The replaced entry is the v-th of d' before the moved one is taken out. */
  ghost predicate OverAt(s: State, d: nat, name: string, d': nat, newName: string, v: nat) {
    var mid := MovedOut(s.nodes, d, name); var es := EntriesOf(s.nodes, d');
    && ListedAt(s.nodes, Some(d), name).Ok? && Replaced(mid, d', newName) != {}
    && var k := FindName(EntriesOf(s.nodes, d), name).value;
    && v < |es| && es[v].name == newName && es[v].slot == SlotNamed(mid, d', newName) && DistinctEntries(es)
    && es[v].slot != SlotNamed(s.nodes, d, name) && (d == d' ==> v != k)
    && Unlisted(mid, d', newName).entries ==
         if d == d' then Without(Without(es, k), if v < k then v else v - 1) else Without(es, v)
  }

  lemma OverPosition(s: State, d: nat, name: string, d': nat, newName: string) returns (v: nat)
    requires Sound(s) && ListedAt(s.nodes, Some(d), name).Ok? && d' in s.nodes && s.nodes[d'].Directory?
    requires Replaced(MovedOut(s.nodes, d, name), d', newName) != {}
    ensures OverAt(s, d, name, d', newName, v)
  {
    hide FindName;
    hide HasName;
    hide Sound;
    hide Without;
    var mid := MovedOut(s.nodes, d, name);
    var k := FindName(EntriesOf(s.nodes, d), name).value;
    var m := FindName(EntriesOf(mid, d'), newName).value;
    FoundIs(EntriesOf(s.nodes, d), name);
    FoundIs(EntriesOf(mid, d'), newName);
    EntriesApart(s, d, d');
    EntriesApart(s, d', d);
    WithoutLength(EntriesOf(s.nodes, d), k);
    v := if d == d' && m >= k then m + 1 else m;
    if d == d' { WithoutTwice(EntriesOf(s.nodes, d), k, v); }
  }

  lemma WithoutLength(es: seq<DirEntry>, k: nat)
    requires k < |es|
    ensures |Without(es, k)| == |es| - 1
  {
  }

  lemma RenamedOver(s: State, d: nat, name: string, d': nat, newName: string)
    requires Sound(s) && ListedAt(s.nodes, Some(d), name).Ok? && d' in s.nodes && s.nodes[d'].Directory?
    requires Replaced(MovedOut(s.nodes, d, name), d', newName) != {}
    requires SlotNamed(MovedOut(s.nodes, d, name), d', newName) in s.files
    ensures var v := SlotNamed(MovedOut(s.nodes, d, name), d', newName);
            && OthersKept(s, Renamed(s, d, name, d', newName), v)
            && Orphans(Renamed(s, d, name, d', newName)) == s.files[v].Slots() - {v}
            && (!s.IsOpen(v) ==> (Sound(Renamed(s, d, name, d', newName)) <==> s.files[v].Slots() == {v}))
  {
    hide Sound;
    hide FindName;
    hide HasName;
    hide Unlisted;
    hide FileBytes;
    hide FileSlots;
    hide SlotsKept;
    hide Footprint;
    ListedNode(s, Some(d), name);
    DirIs(s.nodes, d, name);
    var kv := OverPosition(s, d, name, d', newName);
    var v := SlotNamed(MovedOut(s.nodes, d, name), d', newName);
    var s' := Renamed(s, d, name, d', newName);
    FileSlotsAreNoDirs(s, v);
    HeadInSlots(s, v);
    DroppedOthers(s, s'.nodes, v, {v});
    assert s'.nodes.Keys == s.nodes.Keys - {v};
    assert Dirs(s'.nodes).Keys == Dirs(s.nodes).Keys;
    DroppedOrphans(s, s'.nodes, v, {v});
    if s.files[v].Slots() == {v} && !s.IsOpen(v) { OverSound(s, d, name, d', newName, kv); }
    if Sound(s') { NoOrphans(s'); }
  }

  lemma NoOrphans(s: State)
    requires Sound(s)
    ensures Orphans(s) == {}
  {
  }

  /** A replaced directory: no file changes, and the state is sound exactly if the directory was empty. */
  lemma RenamedOverDir(s: State, d: nat, name: string, d': nat, newName: string)
    requires Sound(s) && ListedAt(s.nodes, Some(d), name).Ok? && d' in s.nodes && s.nodes[d'].Directory?
    requires Replaced(MovedOut(s.nodes, d, name), d', newName) != {}
    requires var v := SlotNamed(MovedOut(s.nodes, d, name), d', newName);
             v in s.nodes && s.nodes[v].Directory? && v !in s.files && v != d'
    ensures var v := SlotNamed(MovedOut(s.nodes, d, name), d', newName);
            && OthersKept(s, Renamed(s, d, name, d', newName), v)
            && (v != d ==> (Sound(Renamed(s, d, name, d', newName)) <==> EntriesOf(s.nodes, v) == []))
  {
    hide Sound;
    hide FindName;
    hide HasName;
    hide Unlisted;
    hide FileBytes;
    ListedNode(s, Some(d), name);
    DirIs(s.nodes, d, name);
    var kv := OverPosition(s, d, name, d', newName);
    var v := SlotNamed(MovedOut(s.nodes, d, name), d', newName);
    DirsOnlyKeep(s, Renamed(s, d, name, d', newName).nodes, v);
    if v != d {
      if EntriesOf(s.nodes, v) == [] { OverDirSound(s, d, name, d', newName, kv); }
      else { LostChildren(s, d, name, d', newName, kv); }
    }
  }

  lemma LostChildren(s: State, d: nat, name: string, d': nat, newName: string, kv: nat)
    requires Sound(s) && ListedAt(s.nodes, Some(d), name).Ok? && d' in s.nodes && s.nodes[d'].Directory?
    requires Replaced(MovedOut(s.nodes, d, name), d', newName) != {}
    requires var v := SlotNamed(MovedOut(s.nodes, d, name), d', newName);
             && kv < |EntriesOf(s.nodes, d')| && EntriesOf(s.nodes, d')[kv].slot == v
             && v in s.nodes && s.nodes[v].Directory? && s.nodes[v].entries != [] && v != d' && v != d
    ensures !Sound(Renamed(s, d, name, d', newName))
  {
    hide Sound;
    hide Unlisted;
    hide SlotNamed;
    hide PlacedIn;
    hide FindName;
    var v := SlotNamed(MovedOut(s.nodes, d, name), d', newName);
    ListedNode(s, Some(d), name);
    EntryNode(s, v, 0);
    EntryNode(s, d', kv);
    ParentGone(Renamed(s, d, name, d', newName), s.nodes[v].entries[0].slot, v);
  }

  lemma HeadInSlots(s: State, x: nat)
    requires Sound(s) && x in s.files
    ensures x in s.files[x].Slots()
  {
    hide FileOk;
    hide Footprint;
    hide FilesSound;
    FileAt(s.nodes, s.files, x);
  }

  /** Where the moved entry stands once the replaced one is taken out, and that the new name is free then. */
  lemma OverEntries(s: State, d: nat, name: string, d': nat, newName: string, kv: nat, n1: Nodes)
    requires Sound(s) && ListedAt(s.nodes, Some(d), name).Ok? && d' in s.nodes && s.nodes[d'].Directory?
    requires var es := EntriesOf(s.nodes, d'); var k := FindName(EntriesOf(s.nodes, d), name).value;
             && kv < |es| && es[kv].name == newName && DistinctEntries(es) && (d == d' ==> kv != k)
             && (forall y :: y in s.nodes && y != es[kv].slot && y != d' ==> y in n1 && n1[y] == s.nodes[y])
             && d' in n1 && n1[d'] == Directory(Without(es, kv)) && es[kv].slot != d
    ensures var k := FindName(EntriesOf(s.nodes, d), name).value;
            var k1 := if d == d' && kv < k then k - 1 else k;
            && d in n1 && n1[d].Directory? && k1 < |n1[d].entries| && n1[d].entries[k1] == EntriesOf(s.nodes, d)[k]
            && !HasName(if d == d' then Without(n1[d].entries, k1) else n1[d'].entries, newName)
  {
    hide Sound;
    hide FindName;
    hide HasName;
    hide Without;
    var es, k := EntriesOf(s.nodes, d'), FindName(EntriesOf(s.nodes, d), name).value;
    FoundIs(EntriesOf(s.nodes, d), name);
    var k1 := if d == d' && kv < k then k - 1 else k;
    if d == d' { WithoutTwice(es, kv, k); }
    WithoutLength(es, kv);
    NameGone(es, kv);
    if d == d' { StillGone(Without(es, kv), k1, newName); }
  }

  /** What a rename over v leaves, written as the removal of v followed by a rename. */
  lemma OverNodes(s: State, d: nat, name: string, d': nat, newName: string, kv: nat)
    requires d in s.nodes && d' in s.nodes && OverAt(s, d, name, d', newName, kv)
    requires FindName(EntriesOf(s.nodes, d), name).Some?
    requires var es := EntriesOf(s.nodes, d'); es[kv].slot != d && es[kv].slot != d'
    ensures var es, k := EntriesOf(s.nodes, d'), FindName(EntriesOf(s.nodes, d), name).value;
            var n1 := s.nodes[d' := Directory(Without(es, kv))] - {es[kv].slot};
            var k1 := if d == d' && kv < k then k - 1 else k;
            && k1 < |EntriesOf(n1, d)|
            && var cut := n1[d := Directory(Without(EntriesOf(n1, d), k1))];
            var x := SlotNamed(s.nodes, d, name);
            && Renamed(s, d, name, d', newName).nodes ==
              cut[d' := Directory(EntriesOf(cut, d') + [DirEntry(newName, x, KindOf(MovedOut(s.nodes, d, name), x))])]
  {
    hide FindName;
    hide HasName;
    hide Without;
    var es, k := EntriesOf(s.nodes, d'), FindName(EntriesOf(s.nodes, d), name).value;
    FoundIs(EntriesOf(s.nodes, d), name);
    WithoutLength(es, kv);
    if d == d' {
      WithoutTwice(es, k, kv);
      WithoutTwice(es, kv, k);
    }
  }

  /** Replacing a file of one slot is unlinking it and then renaming. */
  lemma OverSound(s: State, d: nat, name: string, d': nat, newName: string, kv: nat)
    requires Sound(s) && ListedAt(s.nodes, Some(d), name).Ok? && d' in s.nodes && s.nodes[d'].Directory?
    requires Replaced(MovedOut(s.nodes, d, name), d', newName) != {}
    requires OverAt(s, d, name, d', newName, kv)
    requires var v := EntriesOf(s.nodes, d')[kv].slot; v in s.files && !s.IsOpen(v) && s.files[v].Slots() == {v}
    ensures Sound(Renamed(s, d, name, d', newName))
  {
    hide FileView.Slots;
    hide PlacedIn;
    hide Sound;
    hide FindName;
    hide HasName;
    hide Without;
    hide AfterUnlink;
    var es, k := EntriesOf(s.nodes, d'), FindName(EntriesOf(s.nodes, d), name).value;
    var v := es[kv].slot;
    FoundIs(EntriesOf(s.nodes, d), name);
    EntryKind(s, d, k);
    FileSlotsAreNoDirs(s, v);
    var n1 := s.nodes[d' := Directory(Without(es, kv))] - {v};
    UnlinkStep(s, d', kv, n1);
    AfterUnlinkClosed(s, v, n1);
    OverEntries(s, d, name, d', newName, kv, n1);
    OverNodes(s, d, name, d', newName, kv);
    RenameStep(AfterUnlink(s, v, n1), d, if d == d' && kv < k then k - 1 else k, d', newName,
               Renamed(s, d, name, d', newName).nodes);
  }

  /** Replacing an empty directory is removing it and then renaming. */
  lemma OverDirSound(s: State, d: nat, name: string, d': nat, newName: string, kv: nat)
    requires Sound(s) && ListedAt(s.nodes, Some(d), name).Ok? && d' in s.nodes && s.nodes[d'].Directory?
    requires Replaced(MovedOut(s.nodes, d, name), d', newName) != {}
    requires OverAt(s, d, name, d', newName, kv)
    requires var v := EntriesOf(s.nodes, d')[kv].slot;
             v in s.nodes && s.nodes[v] == Directory([]) && v !in s.files && v != d && v != d'
    ensures Sound(Renamed(s, d, name, d', newName))
  {
    hide Sound;
    hide FindName;
    hide HasName;
    hide Without;
    var es, k := EntriesOf(s.nodes, d'), FindName(EntriesOf(s.nodes, d), name).value;
    var v := es[kv].slot;
    FoundIs(EntriesOf(s.nodes, d), name);
    EntryKind(s, d, k);
    var n1 := s.nodes[d' := Directory(Without(es, kv))] - {v};
    RmdirStep(s, d', kv, n1);
    OverEntries(s, d, name, d', newName, kv, n1);
    OverNodes(s, d, name, d', newName, kv);
    assert s.files - {v} == s.files;
    RenameStep(s.(nodes := n1, parent := s.parent - {v}, known := s.known - {v}), d,
               if d == d' && kv < k then k - 1 else k, d', newName, Renamed(s, d, name, d', newName).nodes);
  }

  lemma AfterUnlinkClosed(s: State, v: nat, nodes': Nodes)
    requires !s.IsOpen(v)
    ensures AfterUnlink(s, v, nodes') == State(nodes', s.files - {v}, s.root, s.parent - {v}, s.views, s.known - {v})
  {
    forall x | x in s.views ensures s.views[x].h.head != v {
    }
  }

  lemma FoundIs(es: seq<DirEntry>, name: string)
    ensures FindName(es, name).Some? ==> FindName(es, name).value < |es| && es[FindName(es, name).value].name == name
    ensures FindName(es, name).None? <==> !HasName(es, name)
  {
  }

  /** Entries carry the kind of what they list. */
  lemma EntryKind(s: State, d: nat, k: nat)
    requires Sound(s) && d in s.nodes && s.nodes[d].Directory? && k < |s.nodes[d].entries|
    ensures s.nodes[d].entries[k].kind == KindOf(s.nodes, s.nodes[d].entries[k].slot)
  {
    hide FilesSound;
    hide HandlesSound;
    assert KindsRight(Dirs(s.nodes)[d], Dirs(s.nodes).Keys);
  }

  /** Only file heads have handles. */
  lemma HeadsAreFiles(s: State)
    requires Sound(s)
    ensures forall fh :: fh in s.views ==> s.views[fh].h.head in s.nodes && s.nodes[s.views[fh].h.head].File?
  {
    hide FileOk;
    hide Footprint;
    hide TreeSound;
    hide NoLeak;
    forall fh | fh in s.views ensures s.views[fh].h.head in Heads(s.nodes) {
      assert s.views[fh].h.head in s.files;
    }
  }

  /** What soundness says of one open handle. */
  lemma HandleParts(s: State, fh: nat)
    requires Sound(s) && fh in s.views
    ensures var v := s.views[fh];
            && v.h.head in s.files && s.files[v.h.head] == v && FileOk(v.h, s.nodes, v.chain)
            && s.BytesOf(v.h.head) == FileBytes(v.h, s.nodes)
  {
    FileAt(s.nodes, s.files, s.views[fh].h.head);
  }

  lemma ReadTouches(h: Handle, h': Handle, chain: seq<nat>, nodes: Nodes)
    requires FileOk(h, nodes, chain) && h'.head == h.head && h'.slotMap == h.slotMap
    ensures Touched(h, chain, nodes, h', chain, nodes)
  {
    FootprintInUse(h, nodes, chain);
    assert DataSlots(h') == DataSlots(h);
  }
}
