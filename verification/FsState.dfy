/**
 The whole driver state as a value: disk, files, directory tree, open handles and known inodes, and
 the steps that the file operations take on it.
 */
module FsState {
  import opened Wrappers
  import opened Bytes
  import opened VaultFs
  import opened Handle
  import opened IndexChain
  import opened FileState
  import opened Fs

  /** `views` are the open handles by number; `known` the slots that have an inode number. */
  datatype State = State(nodes: Nodes, files: map<nat, FileView>, root: nat, parent: map<nat, nat>,
                         views: map<nat, FileView>, known: set<nat>)
  {
    /** The bytes of a file, through its handle if it has one. */
    function BytesOf(f: nat): seq<byte> {
      if f in files then FileBytes(files[f].h, nodes) else []
    }

    ghost predicate IsOpen(f: nat) {
      exists fh :: fh in views && views[fh].h.head == f
    }
  }

  /** At most one handle per file, and it is what the file looks like; closed files are as on disk. */
  ghost predicate HandlesSound(s: State) {
    && (forall fh :: fh in s.views ==> s.views[fh].h.head in s.files && s.files[s.views[fh].h.head] == s.views[fh])
    && (forall a, b :: a in s.views && b in s.views && a != b ==> s.views[a].h.head != s.views[b].h.head)
    && (forall f :: f in s.files && !s.IsOpen(f) ==> s.files[f].h == DiskView(s.nodes, f, s.files[f].chain))
  }

  ghost predicate Sound(s: State) {
    && FilesSound(s.nodes, s.files)
    && TreeSound(Dirs(s.nodes), Heads(s.nodes), s.root, s.parent)
    && HandlesSound(s)
    && KnownSound(s)
  }

  /** Inode numbers stand for directories and file heads. */
  ghost predicate KnownSound(s: State) {
    forall k :: k in s.known ==> k in s.nodes && (k in Dirs(s.nodes) || k in Heads(s.nodes))
  }

  /** Every file other than f has the bytes it had. */
  ghost predicate OthersKept(s: State, s': State, f: nat) {
    forall g :: g in s.files && g != f ==> g in s'.files && s'.BytesOf(g) == s.BytesOf(g)
  }

  /** A file whose slots did not change looks the same on disk. */
  lemma DiskViewFrame(v: FileView, nodes: Nodes, nodes': Nodes)
    requires FileOk(v.h, nodes, v.chain)
    requires forall x :: x in v.Slots() ==> x in nodes && x in nodes' && nodes'[x] == nodes[x]
    ensures DiskView(nodes', v.h.head, v.chain) == DiskView(nodes, v.h.head, v.chain)
  {
    assert v.h.head in v.Slots();
    forall x | x in v.chain ensures x in v.Slots() {
      assert x in SlotSet(v.chain);
    }
    ChainFrame(nodes, nodes', v.h.chain, v.chain);
  }

  /** The files outside `gone` keep their disk view when their slots are kept. */
  lemma ClosedFrame(s: State, nodes': Nodes, g: nat)
    requires FilesSound(s.nodes, s.files) && g in s.files
    requires forall x :: x in s.files[g].Slots() ==> x in nodes' && nodes'[x] == s.nodes[x]
    ensures DiskView(nodes', g, s.files[g].chain) == DiskView(s.nodes, g, s.files[g].chain)
  {
    SlotsAreFileNodes(s.nodes, s.files, g);
    DiskViewFrame(s.files[g], s.nodes, nodes');
  }

  /** What an operation through handle fh leaves. */
  function AfterHandle(s: State, fh: nat, nodes': Nodes, v': FileView): State
    requires fh in s.views
  {
    s.(nodes := nodes', files := s.files[s.views[fh].h.head := v'], views := s.views[fh := v'])
  }

  /** Nothing but handle fh, its file and the disk has changed. */
  ghost predicate OnlyHandle(s: State, s': State, fh: nat) {
    && fh in s.views && fh in s'.views && s'.views[fh].h.head == s.views[fh].h.head
    && s' == AfterHandle(s, fh, s'.nodes, s'.views[fh])
  }

  /** Handle fh gone and its file as the disk has it. */
  function Closed(s: State, fh: nat): State
    requires fh in s.views
  {
    var v := s.views[fh];
    s.(files := s.files[v.h.head := FileView(DiskView(s.nodes, v.h.head, v.chain), v.chain)], views := s.views - {fh})
  }

  /** Handles of files other than f are as they were. */
  ghost predicate OtherHandles(s: State, s': State, f: nat) {
    && (forall g :: g in s'.files && g != f ==> (
          && g in s.files && s'.files[g] == s.files[g]
          && DiskView(s'.nodes, g, s.files[g].chain) == DiskView(s.nodes, g, s.files[g].chain)))
    && (forall x :: x in s'.views && s'.views[x].h.head != f ==> x in s.views && s'.views[x] == s.views[x])
    && (forall x :: x in s.views && s.views[x].h.head != f ==> x in s'.views && s'.views[x] == s.views[x])
    && (forall g :: g in s.files && g != f ==> g in s'.files)
  }

  /** A change to f and its handle only. */
  lemma HandlesFrame(s: State, s': State, f: nat)
    requires HandlesSound(s) && OtherHandles(s, s', f)
    requires forall x :: x in s'.views && s'.views[x].h.head == f ==> f in s'.files && s'.files[f] == s'.views[x]
    requires forall x, y :: x in s'.views && y in s'.views && s'.views[x].h.head == f && s'.views[y].h.head == f ==>
               x == y
    requires f in s'.files && !s'.IsOpen(f) ==> s'.files[f].h == DiskView(s'.nodes, f, s'.files[f].chain)
    ensures HandlesSound(s')
  {
    hide DiskView;
    forall g | s.IsOpen(g) && g != f ensures s'.IsOpen(g) {
      var x :| x in s.views && s.views[x].h.head == g;
      assert x in s'.views && s'.views[x].h.head == g;
    }
  }

  /** Files other than f keep their slots, hence their bytes and their look on disk. */
  ghost predicate SlotsKept(s: State, nodes': Nodes, f: nat) {
    forall g, x :: g in s.files && g != f && x in s.files[g].Slots() ==>
      x in s.nodes && x in nodes' && nodes'[x] == s.nodes[x]
  }

  lemma KeptElsewhere(s: State, nodes': Nodes, f: nat)
    requires FilesSound(s.nodes, s.files) && SlotsKept(s, nodes', f)
    ensures forall g :: g in s.files && g != f ==>
              DiskView(nodes', g, s.files[g].chain) == DiskView(s.nodes, g, s.files[g].chain)
              && FileBytes(s.files[g].h, nodes') == FileBytes(s.files[g].h, s.nodes)
  {
    hide FileOk;
    hide Footprint;
    hide FilesSound;
    hide DiskView;
    hide FileBytes;
    forall g | g in s.files && g != f
      ensures DiskView(nodes', g, s.files[g].chain) == DiskView(s.nodes, g, s.files[g].chain)
      ensures FileBytes(s.files[g].h, nodes') == FileBytes(s.files[g].h, s.nodes)
    {
      FileAt(s.nodes, s.files, g);
      DiskViewFrame(s.files[g], s.nodes, nodes');
      FileFrame(s.files[g].h, s.nodes, s.files[g].chain, nodes');
    }
  }

  /** Nothing but file f and its handle changed, as far as files go. */
  ghost predicate OnlyFile(s: State, s': State, f: nat) {
    && s'.files - {f} == s.files - {f}
    && (forall x :: x in s'.views && s'.views[x].h.head != f ==> x in s.views && s'.views[x] == s.views[x])
    && (forall x :: x in s.views && s.views[x].h.head != f ==> x in s'.views && s'.views[x] == s.views[x])
    && SlotsKept(s, s'.nodes, f)
  }

  /** File f is gone, or seen through its one handle, or as on disk. */
  ghost predicate OwnHandle(s: State, f: nat) {
    && (forall x :: x in s.views && s.views[x].h.head == f ==> f in s.files && s.files[f] == s.views[x])
    && (forall x, y :: x in s.views && y in s.views && s.views[x].h.head == f && s.views[y].h.head == f ==> x == y)
    && (f in s.files && !s.IsOpen(f) ==> s.files[f].h == DiskView(s.nodes, f, s.files[f].chain))
  }

  /** A step of one file: every other handle stays sound and every other file keeps its bytes. */
  lemma StepDone(s: State, s': State, f: nat)
    requires FilesSound(s.nodes, s.files) && HandlesSound(s) && OnlyFile(s, s', f) && OwnHandle(s', f)
    ensures HandlesSound(s') && OthersKept(s, s', f)
  {
    hide FileOk;
    hide FilesSound;
    hide DiskView;
    hide FileBytes;
    hide SlotsKept;
    hide HandlesSound;
    hide State.IsOpen;
    KeptElsewhere(s, s'.nodes, f);
    forall g | g != f ensures (g in s.files <==> g in s'.files) && (g in s.files ==> s'.files[g] == s.files[g]) {
      assert g in s.files <==> g in s.files - {f};
      assert g in s'.files <==> g in s'.files - {f};
    }
    HandlesFrame(s, s', f);
  }

  /** A step of file f inside its own slots keeps the slots of the others. */
  lemma TouchedKeeps(s: State, f: nat, nodes': Nodes, v': FileView)
    requires FilesSound(s.nodes, s.files) && FileStepped(s.nodes, s.files, f, nodes', v')
    ensures SlotsKept(s, nodes', f)
  {
    hide FileOk;
    hide Footprint;
    hide FilesSound;
    forall g, x | g in s.files && g != f && x in s.files[g].Slots()
      ensures x in s.nodes && x in nodes' && nodes'[x] == s.nodes[x]
    {
      FileAt(s.nodes, s.files, g);
    }
  }

  /** An operation through one handle: the driver stays sound, every other file keeps its bytes. */
  lemma HandleStep(s: State, fh: nat, nodes': Nodes, v': FileView)
    requires Sound(s) && fh in s.views && v'.h.head == s.views[fh].h.head
    requires FileOk(v'.h, nodes', v'.chain)
    requires Touched(s.views[fh].h, s.views[fh].chain, s.nodes, v'.h, v'.chain, nodes')
    ensures Sound(AfterHandle(s, fh, nodes', v'))
    ensures OthersKept(s, AfterHandle(s, fh, nodes', v'), v'.h.head)
    ensures Dirs(nodes') == Dirs(s.nodes) && Heads(nodes') == Heads(s.nodes)
  {
    hide FileOk;
    hide Touched;
    hide TreeSound;
    hide FilesSound;
    hide OnlyFile;
    hide OwnHandle;
    hide OthersKept;
    hide KnownSound;
    var f := v'.h.head;
    var s' := AfterHandle(s, fh, nodes', v');
    FileStepSound(s.nodes, s.files, f, nodes', v');
    TouchedKeeps(s, f, nodes', v');
    ReplacedOnly(s, fh, nodes', v');
    StepDone(s, s', f);
    KnownKept(s, s');
  }

  lemma ReplacedOnly(s: State, fh: nat, nodes': Nodes, v': FileView)
    requires HandlesSound(s) && fh in s.views && v'.h.head == s.views[fh].h.head && SlotsKept(s, nodes', v'.h.head)
    ensures OnlyFile(s, AfterHandle(s, fh, nodes', v'), v'.h.head)
    ensures OwnHandle(AfterHandle(s, fh, nodes', v'), v'.h.head)
  {
    hide SlotsKept;
    hide DiskView;
    assert AfterHandle(s, fh, nodes', v').views[fh].h.head == v'.h.head;
  }

  lemma KnownKept(s: State, s': State)
    requires KnownSound(s)
    requires Dirs(s'.nodes).Keys >= Dirs(s.nodes).Keys && Heads(s'.nodes) >= Heads(s.nodes)
    requires forall k :: k in s'.known ==> k in s.known || k in Dirs(s'.nodes) || k in Heads(s'.nodes)
    ensures KnownSound(s')
  {
  }

  /** Opening a closed file. */
  lemma OpenStep(s: State, fh: nat, f: nat, v: FileView)
    requires Sound(s) && fh !in s.views && f in s.files && !s.IsOpen(f)
    requires v.h.head == f && FileOk(v.h, s.nodes, v.chain)
    requires v.Slots() == s.files[f].Slots() && FileBytes(v.h, s.nodes) == FileBytes(s.files[f].h, s.nodes)
    ensures Sound(s.(files := s.files[f := v], views := s.views[fh := v]))
    ensures OthersKept(s, s.(files := s.files[f := v], views := s.views[fh := v]), f)
    ensures s.(files := s.files[f := v], views := s.views[fh := v]).BytesOf(f) == s.BytesOf(f)
  {
    hide FileOk;
    hide Footprint;
    hide TreeSound;
    hide FilesSound;
    hide FileBytes;
    hide OnlyFile;
    hide OwnHandle;
    hide OthersKept;
    var s' := s.(files := s.files[f := v], views := s.views[fh := v]);
    SwapView(s, f, v);
    SameSlots(s, f);
    forall x | x in s.views ensures s.views[x].h.head != f {
    }
    OpenedOnly(s, s', fh, f, v);
    StepDone(s, s', f);
  }

  lemma SameSlots(s: State, f: nat)
    requires FilesSound(s.nodes, s.files)
    ensures SlotsKept(s, s.nodes, f)
  {
    hide FileOk;
    hide Footprint;
    hide FilesSound;
    forall g, x | g in s.files && g != f && x in s.files[g].Slots() ensures x in s.nodes {
      FileAt(s.nodes, s.files, g);
    }
  }

  /** A handle added for file f, which had none. */
  lemma OpenedOnly(s: State, s': State, fh: nat, f: nat, v: FileView)
    requires fh !in s.views && v.h.head == f && SlotsKept(s, s'.nodes, f)
    requires forall x :: x in s.views ==> s.views[x].h.head != f
    requires s'.files == s.files[f := v] && s'.views == s.views[fh := v]
    ensures OnlyFile(s, s', f) && OwnHandle(s', f)
  {
    hide SlotsKept;
    hide DiskView;
    assert s'.views[fh].h.head == f;
  }

  /** Looking at the same slots through another handle value. */
  lemma SwapView(s: State, f: nat, v: FileView)
    requires FilesSound(s.nodes, s.files) && f in s.files
    requires v.h.head == f && FileOk(v.h, s.nodes, v.chain) && v.Slots() == s.files[f].Slots()
    ensures FilesSound(s.nodes, s.files[f := v])
  {
    hide FileOk;
    hide Footprint;
    hide NoLeak;
    FileAt(s.nodes, s.files, f);
    assert FileStepped(s.nodes, s.files, f, s.nodes, v);
    FileStepSound(s.nodes, s.files, f, s.nodes, v);
  }

  /** A clean handle and the disk look at the same slots and bytes. */
  lemma CleanView(v: FileView, nodes: Nodes)
    requires FileOk(v.h, nodes, v.chain) && v.h.dirty == {} && !v.h.metaDirty
    ensures var d := DiskView(nodes, v.h.head, v.chain);
            d.head == v.h.head && FileOk(d, nodes, v.chain)
            && FileView(d, v.chain).Slots() == v.Slots() && FileBytes(d, nodes) == FileBytes(v.h, nodes)
  {
    CleanReopens(v.h, nodes, v.chain);
    assert DiskView(nodes, v.h.head, v.chain).slotMap == v.h.slotMap;
  }

  /** Closing a handle whose file is as on disk. */
  lemma CloseStep(s: State, fh: nat)
    requires Sound(s) && fh in s.views
    requires s.views[fh].h.dirty == {} && !s.views[fh].h.metaDirty
    ensures var v := s.views[fh]; var f := v.h.head; var v' := FileView(DiskView(s.nodes, f, v.chain), v.chain);
            var s' := s.(files := s.files[f := v'], views := s.views - {fh});
            Sound(s') && OthersKept(s, s', f) && s'.BytesOf(f) == s.BytesOf(f)
  {
    hide FileOk;
    hide Footprint;
    hide TreeSound;
    hide FilesSound;
    hide DiskView;
    hide FileBytes;
    hide OnlyFile;
    hide OwnHandle;
    hide OthersKept;
    var v := s.views[fh];
    var f := v.h.head;
    var v' := FileView(DiskView(s.nodes, f, v.chain), v.chain);
    var s' := s.(files := s.files[f := v'], views := s.views - {fh});
    FileAt(s.nodes, s.files, f);
    CleanView(v, s.nodes);
    SwapView(s, f, v');
    SameSlots(s, f);
    ClosedOnly(s, fh);
    StepDone(s, s', f);
  }

  lemma ClosedOnly(s: State, fh: nat)
    requires HandlesSound(s) && fh in s.views && SlotsKept(s, s.nodes, s.views[fh].h.head)
    ensures var v := s.views[fh]; var f := v.h.head;
            var d := FileView(DiskView(s.nodes, f, v.chain), v.chain);
            var s' := s.(files := s.files[f := d], views := s.views - {fh});
            OnlyFile(s, s', f) && OwnHandle(s', f)
  {
    hide SlotsKept;
    hide DiskView;
  }

  /** Directories changed, files and handles untouched. */
  lemma DirsStep(s: State, nodes': Nodes, parent': map<nat, nat>, known': set<nat>)
    requires Sound(s)
    requires forall x :: x in s.nodes && !s.nodes[x].Directory? <==> x in nodes' && !nodes'[x].Directory?
    requires forall x :: x in s.nodes && !s.nodes[x].Directory? ==> nodes'[x] == s.nodes[x]
    requires TreeSound(Dirs(nodes'), Heads(nodes'), s.root, parent')
    requires forall k :: k in known' ==> k in nodes' && (k in Dirs(nodes') || k in Heads(nodes'))
    ensures Sound(s.(nodes := nodes', parent := parent', known := known'))
    ensures forall g :: g in s.files ==> FileBytes(s.files[g].h, nodes') == s.BytesOf(g)
  {
    hide FileOk;
    hide Footprint;
    hide TreeSound;
    hide NoLeak;
    hide DiskView;
    hide FileBytes;
    hide FilesSound;
    DirChangeSound(s.nodes, s.files, nodes');
    forall g | g in s.files ensures DiskView(nodes', g, s.files[g].chain) == DiskView(s.nodes, g, s.files[g].chain) {
      FileAt(s.nodes, s.files, g);
      ClosedFrame(s, nodes', g);
    }
    var s' := s.(nodes := nodes', parent := parent', known := known');
    forall g | s.IsOpen(g) ensures s'.IsOpen(g) {
      var x :| x in s.views && s.views[x].h.head == g;
      assert x in s'.views;
    }
  }

  /** A new empty file in directory d, opened at once. */
  lemma CreateStep(s: State, d: nat, name: string, f: nat, fh: nat, nodes': Nodes)
    requires Sound(s) && d in Dirs(s.nodes) && !HasName(Dirs(s.nodes)[d], name) && f !in s.nodes && fh !in s.views
    requires nodes' == s.nodes[f := NewFile()][d := Directory(Dirs(s.nodes)[d] + [DirEntry(name, f, FileKind)])]
    ensures Sound(AfterCreate(s, d, f, fh, nodes'))
    ensures OthersKept(s, AfterCreate(s, d, f, fh, nodes'), f) && AfterCreate(s, d, f, fh, nodes').BytesOf(f) == []
  {
    hide TreeSound;
    hide FilesSound;
    hide KnownSound;
    hide FileBytes;
    hide NewView;
    hide NewFile;
    hide HasName;
    hide OnlyFile;
    hide OwnHandle;
    hide OthersKept;
    var s' := AfterCreate(s, d, f, fh, nodes');
    NotInUse(s, f);
    CreatedSound(s, d, name, f, nodes');
    CreatedKeeps(s, d, f, nodes');
    NewViewHead(f, nodes');
    OpenedOnly(s, s', fh, f, NewView(f));
    StepDone(s, s', f);
    KnownKept(s, s');
  }

  lemma CreatedSound(s: State, d: nat, name: string, f: nat, nodes': Nodes)
    requires Sound(s) && d in Dirs(s.nodes) && !HasName(Dirs(s.nodes)[d], name) && f !in s.nodes
    requires nodes' == s.nodes[f := NewFile()][d := Directory(Dirs(s.nodes)[d] + [DirEntry(name, f, FileKind)])]
    ensures FilesSound(nodes', s.files[f := NewView(f)])
    ensures TreeSound(Dirs(nodes'), Heads(nodes'), s.root, s.parent[f := d])
    ensures f in Heads(nodes') && Dirs(nodes').Keys >= Dirs(s.nodes).Keys && Heads(nodes') >= Heads(s.nodes)
  {
    hide TreeSound;
    hide FilesSound;
    hide NewView;
    hide NewFile;
    hide HasName;
    var e := DirEntry(name, f, FileKind);
    var mid := s.nodes[f := NewFile()];
    NotInUse(s, f);
    AddFileSound(s.nodes, s.files, f);
    CreatedDirs(s, d, e, nodes');
    AddEntrySound(Dirs(s.nodes), Heads(s.nodes), s.root, s.parent, d, e, Dirs(nodes'), Heads(nodes'));
    NewFileNode();
    DirChangeSound(mid, s.files[f := NewView(f)], nodes');
  }

  function AfterCreate(s: State, d: nat, f: nat, fh: nat, nodes': Nodes): State {
    State(nodes', s.files[f := NewView(f)], s.root, s.parent[f := d], s.views[fh := NewView(f)], s.known + {f})
  }

  lemma NewFileNode()
    ensures NewFile().File?
  {
  }

  lemma NewViewHead(f: nat, nodes: Nodes)
    ensures NewView(f).h.head == f && FileBytes(NewView(f).h, nodes) == []
  {
  }

  lemma NotInUse(s: State, f: nat)
    requires Sound(s) && f !in s.nodes
    ensures f !in s.files && f !in Dirs(s.nodes) && f !in Heads(s.nodes)
    ensures forall x :: x in s.views ==> s.views[x].h.head != f
  {
  }

  lemma CreatedKeeps(s: State, d: nat, f: nat, nodes': Nodes)
    requires FilesSound(s.nodes, s.files) && f !in s.nodes && d in Dirs(s.nodes)
    requires exists es :: nodes' == s.nodes[f := NewFile()][d := Directory(es)]
    ensures SlotsKept(s, nodes', f)
  {
    hide FileOk;
    hide Footprint;
    hide FilesSound;
    forall g, x | g in s.files && g != f && x in s.files[g].Slots()
      ensures x in s.nodes && x in nodes' && nodes'[x] == s.nodes[x]
    {
      FileAt(s.nodes, s.files, g);
    }
  }

  lemma CreatedDirs(s: State, d: nat, e: DirEntry, nodes': Nodes)
    requires d in Dirs(s.nodes) && e.slot !in s.nodes
    requires nodes' == s.nodes[e.slot := NewFile()][d := Directory(Dirs(s.nodes)[d] + [e])]
    ensures Dirs(nodes') == Dirs(s.nodes)[d := Dirs(s.nodes)[d] + [e]] && Heads(nodes') == Heads(s.nodes) + {e.slot}
  {
  }

  /** A file with all its slots unlisted and freed, and its handles dropped. */
  lemma UnlinkStep(s: State, d: nat, k: nat, nodes': Nodes)
    requires Sound(s) && d in Dirs(s.nodes) && k < |Dirs(s.nodes)[d]| && Dirs(s.nodes)[d][k].slot in s.files
    requires var f := Dirs(s.nodes)[d][k].slot;
             nodes' == s.nodes[d := Directory(Without(Dirs(s.nodes)[d], k))] - s.files[f].Slots()
    ensures Sound(AfterUnlink(s, Dirs(s.nodes)[d][k].slot, nodes'))
    ensures OthersKept(s, AfterUnlink(s, Dirs(s.nodes)[d][k].slot, nodes'), Dirs(s.nodes)[d][k].slot)
  {
    hide FileOk;
    hide Footprint;
    hide FilesSound;
    hide TreeSound;
    hide Without;
    hide OnlyFile;
    hide OwnHandle;
    hide OthersKept;
    hide KnownSound;
    var f := Dirs(s.nodes)[d][k].slot;
    var es := Without(Dirs(s.nodes)[d], k);
    UnlinkFiles(s, d, f, es, nodes');
    UnlinkTree(s, d, k, nodes');
    UnlinkKeeps(s, d, f, nodes', es);
    UnlinkOnly(s, f, nodes');
    StepDone(s, AfterUnlink(s, f, nodes'), f);
    UnlinkKnown(s, f, nodes');
  }

  lemma UnlinkFiles(s: State, d: nat, f: nat, es: seq<DirEntry>, nodes': Nodes)
    requires FilesSound(s.nodes, s.files) && d in Dirs(s.nodes) && f in s.files
    requires nodes' == s.nodes[d := Directory(es)] - s.files[f].Slots()
    ensures FilesSound(nodes', s.files - {f})
  {
    hide FilesSound;
    hide Footprint;
    var mid := s.nodes[d := Directory(es)];
    DirChangeSound(s.nodes, s.files, mid);
    RemoveFileSound(mid, s.files, f, nodes');
  }

  lemma UnlinkOnly(s: State, f: nat, nodes': Nodes)
    requires SlotsKept(s, nodes', f)
    ensures OnlyFile(s, AfterUnlink(s, f, nodes'), f) && OwnHandle(AfterUnlink(s, f, nodes'), f)
  {
    hide SlotsKept;
    hide DiskView;
  }

  lemma UnlinkKnown(s: State, f: nat, nodes': Nodes)
    requires KnownSound(s) && Dirs(nodes').Keys == Dirs(s.nodes).Keys && Heads(nodes') == Heads(s.nodes) - {f}
    ensures KnownSound(AfterUnlink(s, f, nodes'))
  {
    forall k | k in s.known && k != f ensures k in Dirs(nodes') || k in Heads(nodes') {
      assert k in Dirs(s.nodes).Keys || k in Heads(s.nodes);
    }
  }

  function AfterUnlink(s: State, f: nat, nodes': Nodes): State {
    State(nodes', s.files - {f}, s.root, s.parent - {f},
          map fh | fh in s.views && s.views[fh].h.head != f :: s.views[fh], s.known - {f})
  }

  lemma UnlinkKeeps(s: State, d: nat, f: nat, nodes': Nodes, es: seq<DirEntry>)
    requires FilesSound(s.nodes, s.files) && f in s.files && d in Dirs(s.nodes)
    requires nodes' == s.nodes[d := Directory(es)] - s.files[f].Slots()
    ensures SlotsKept(s, nodes', f)
  {
    hide FileOk;
    hide Footprint;
    hide FilesSound;
    forall g, x | g in s.files && g != f && x in s.files[g].Slots()
      ensures x in s.nodes && x in nodes' && nodes'[x] == s.nodes[x]
    {
      FileAt(s.nodes, s.files, g);
      FileAt(s.nodes, s.files, f);
    }
  }

  lemma UnlinkTree(s: State, d: nat, k: nat, nodes': Nodes)
    requires Sound(s) && d in Dirs(s.nodes) && k < |Dirs(s.nodes)[d]| && Dirs(s.nodes)[d][k].slot in s.files
    requires var f := Dirs(s.nodes)[d][k].slot;
             nodes' == s.nodes[d := Directory(Without(Dirs(s.nodes)[d], k))] - s.files[f].Slots()
    ensures var f := Dirs(s.nodes)[d][k].slot;
            TreeSound(Dirs(nodes'), Heads(nodes'), s.root, s.parent - {f})
            && Dirs(nodes') == Dirs(s.nodes)[d := Without(Dirs(s.nodes)[d], k)]
            && Heads(nodes') == Heads(s.nodes) - {f}
  {
    hide FileOk;
    hide Footprint;
    hide NoLeak;
    hide Without;
    hide TreeSound;
    hide HandlesSound;
    hide KnownSound;
    var f := Dirs(s.nodes)[d][k].slot;
    SlotsAreFileNodes(s.nodes, s.files, f);
    RemoveEntrySound(Dirs(s.nodes), Heads(s.nodes), s.root, s.parent, d, k);
    assert Dirs(nodes') == Dirs(s.nodes)[d := Without(Dirs(s.nodes)[d], k)];
    assert Dirs(nodes') - {f} == Dirs(nodes');
    assert Heads(nodes') == Heads(s.nodes) - {f};
  }

  /** A new empty directory. */
  lemma MkdirStep(s: State, d: nat, name: string, x: nat, nodes': Nodes)
    requires Sound(s) && d in Dirs(s.nodes) && !HasName(Dirs(s.nodes)[d], name) && x !in s.nodes
    requires nodes' ==
               s.nodes[x := Directory([])][d := Directory(Dirs(s.nodes)[d] + [DirEntry(name, x, DirectoryKind)])]
    ensures Sound(s.(nodes := nodes', parent := s.parent[x := d], known := s.known + {x}))
    ensures forall g :: g in s.files ==> FileBytes(s.files[g].h, nodes') == s.BytesOf(g)
  {
    hide TreeSound;
    hide FilesSound;
    hide HasName;
    hide HandlesSound;
    var e := DirEntry(name, x, DirectoryKind);
    NotInUse(s, x);
    assert Dirs(nodes') == Dirs(s.nodes)[x := []][d := Dirs(s.nodes)[d] + [e]];
    assert Heads(nodes') == Heads(s.nodes);
    AddEntrySound(Dirs(s.nodes), Heads(s.nodes), s.root, s.parent, d, e, Dirs(nodes'), Heads(nodes'));
    DirsStep(s, nodes', s.parent[x := d], s.known + {x});
  }

  /** An empty directory unlisted and freed. */
  lemma RmdirStep(s: State, d: nat, k: nat, nodes': Nodes)
    requires Sound(s) && d in Dirs(s.nodes) && k < |Dirs(s.nodes)[d]|
    requires var x := Dirs(s.nodes)[d][k].slot; x in Dirs(s.nodes) && Dirs(s.nodes)[x] == [] && x != d
    requires nodes' == s.nodes[d := Directory(Without(Dirs(s.nodes)[d], k))] - {Dirs(s.nodes)[d][k].slot}
    ensures var x := Dirs(s.nodes)[d][k].slot;
            Sound(s.(nodes := nodes', parent := s.parent - {x}, known := s.known - {x}))
    ensures forall g :: g in s.files ==> FileBytes(s.files[g].h, nodes') == s.BytesOf(g)
  {
    hide TreeSound;
    hide FilesSound;
    hide HandlesSound;
    hide Without;
    var x := Dirs(s.nodes)[d][k].slot;
    RemoveEntrySound(Dirs(s.nodes), Heads(s.nodes), s.root, s.parent, d, k);
    assert Dirs(nodes') == Dirs(s.nodes)[d := Without(Dirs(s.nodes)[d], k)] - {x};
    assert Heads(nodes') == Heads(s.nodes) && Heads(s.nodes) - {x} == Heads(s.nodes);
    DirsStep(s, nodes', s.parent - {x}, s.known - {x});
  }

  /** A listed node moved to a new name, in the same directory or another. */
  lemma RenameStep(s: State, d: nat, k: nat, d': nat, name: string, nodes': Nodes)
    requires Sound(s) && d in Dirs(s.nodes) && k < |Dirs(s.nodes)[d]| && d' in Dirs(s.nodes)
    requires var cut := Dirs(s.nodes)[d := Without(Dirs(s.nodes)[d], k)];
             var e := Dirs(s.nodes)[d][k];
             && !HasName(cut[d'], name)
             && nodes' == s.nodes[d := Directory(cut[d])][d' := Directory(cut[d'] + [DirEntry(name, e.slot, e.kind)])]
    ensures Sound(s.(nodes := nodes', parent := s.parent[Dirs(s.nodes)[d][k].slot := d']))
    ensures forall g :: g in s.files ==> FileBytes(s.files[g].h, nodes') == s.BytesOf(g)
  {
    hide TreeSound;
    hide FilesSound;
    hide HandlesSound;
    hide Without;
    hide HasName;
    var cut := Dirs(s.nodes)[d := Without(Dirs(s.nodes)[d], k)];
    var e := Dirs(s.nodes)[d][k];
    MoveEntrySound(Dirs(s.nodes), Heads(s.nodes), s.root, s.parent, d, k, d', name);
    assert Dirs(nodes') == cut[d' := cut[d'] + [DirEntry(name, e.slot, e.kind)]];
    assert Heads(nodes') == Heads(s.nodes);
    DirsStep(s, nodes', s.parent[e.slot := d'], s.known);
  }

  /** Learning of an inode for a listed node changes nothing. */
  lemma KnowStep(s: State, x: nat)
    requires Sound(s) && x in s.nodes && (x in Dirs(s.nodes) || x in Heads(s.nodes))
    ensures Sound(s.(known := s.known + {x}))
  {
    hide TreeSound;
    hide FilesSound;
    HandlesAnyKnown(s, s.(known := s.known + {x}));
  }

  lemma HandlesAnyKnown(s: State, s': State)
    requires HandlesSound(s) && s' == s.(known := s'.known)
    ensures HandlesSound(s')
  {
    forall f | s.IsOpen(f) ensures s'.IsOpen(f) {
      var x :| x in s.views && s.views[x].h.head == f;
      assert x in s'.views;
    }
  }
}
