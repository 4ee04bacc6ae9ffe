/**
 The file system as a value: which slots each file owns, and how directories refer to them. Every
 used slot belongs to exactly one directory or file, and every directory and file but the root has
 exactly one directory entry.
 */
module Fs {
  import opened Wrappers
  import opened Bytes
  import opened VaultFs
  import opened Handle
  import opened IndexChain
  import opened FileState

  /** A file as its handle (or a fresh one) sees it, with its index slots. */
  datatype FileView = FileView(h: Handle, chain: seq<nat>)
  {
    function Slots(): set<nat> { Footprint(h, chain) }
  }

  // ── Slots ─────────────────────────────────────────────────────────────────

  function Heads(nodes: Nodes): set<nat> {
    set s | s in nodes && nodes[s].File?
  }

  function Dirs(nodes: Nodes): map<nat, seq<DirEntry>> {
    map s | s in nodes && nodes[s].Directory? :: nodes[s].entries
  }

  /** Every slot owned by some file. */
  function FileSlots(files: map<nat, FileView>): set<nat> {
    set f, s | f in files && s in files[f].Slots() :: s
  }

  /** The files on the disk are sound, share no slot, and own every used slot that is not a directory. */
  ghost predicate FilesSound(nodes: Nodes, files: map<nat, FileView>) {
    && files.Keys == Heads(nodes)
    && (forall f :: f in files ==> files[f].h.head == f && FileOk(files[f].h, nodes, files[f].chain))
    && (forall f, g :: f in files && g in files && f != g ==> files[f].Slots() !! files[g].Slots())
    && NoLeak(nodes, files)
  }

  /** Every used slot is a directory or owned by a file. */
  ghost predicate NoLeak(nodes: Nodes, files: map<nat, FileView>) {
    nodes.Keys == Dirs(nodes).Keys + FileSlots(files)
  }

  lemma SlotsAreFileNodes(nodes: Nodes, files: map<nat, FileView>, f: nat)
    requires f in files && files[f].h.head == f && FileOk(files[f].h, nodes, files[f].chain)
    ensures forall s :: s in files[f].Slots() ==> s in nodes && !nodes[s].Directory? && (nodes[s].File? ==> s == f)
    ensures f in files[f].Slots() && f in nodes && nodes[f].File?
  {
    var v := files[f];
    FootprintInUse(v.h, nodes, v.chain);
  }

  /** One file of a sound disk. */
  lemma FileAt(nodes: Nodes, files: map<nat, FileView>, f: nat)
    requires FilesSound(nodes, files) && f in files
    ensures files[f].h.head == f && FileOk(files[f].h, nodes, files[f].chain)
    ensures forall s :: s in files[f].Slots() ==> s in nodes && !nodes[s].Directory? && (nodes[s].File? ==> s == f)
    ensures f in files[f].Slots() && f in nodes && nodes[f].File? && f in Heads(nodes)
    ensures forall g :: g in files && g != f ==> files[g].Slots() !! files[f].Slots()
  {
    SlotsAreFileNodes(nodes, files, f);
  }

  /** One file has worked inside its own and free slots. */
  ghost predicate FileStepped(nodes: Nodes, files: map<nat, FileView>, f: nat, nodes': Nodes, v': FileView) {
    && f in files && v'.h.head == f
    && FileOk(v'.h, nodes', v'.chain)
    && Touched(files[f].h, files[f].chain, nodes, v'.h, v'.chain, nodes')
  }

  /** Isolation: such a step keeps the file system sound and every other file's bytes. */
  lemma FileStepSound(nodes: Nodes, files: map<nat, FileView>, f: nat, nodes': Nodes, v': FileView)
    requires FilesSound(nodes, files) && FileStepped(nodes, files, f, nodes', v')
    ensures FilesSound(nodes', files[f := v'])
    ensures Heads(nodes') == Heads(nodes) && Dirs(nodes') == Dirs(nodes)
    ensures forall g :: g in files && g != f ==> FileBytes(files[g].h, nodes') == FileBytes(files[g].h, nodes)
  {
    hide Footprint;
    hide FileOk;
    hide NoLeak;
    var files' := files[f := v'];
    forall g | g in files && g != f
      ensures FileOk(files[g].h, nodes', files[g].chain)
      ensures FileBytes(files[g].h, nodes') == FileBytes(files[g].h, nodes)
      ensures files[g].Slots() !! v'.Slots()
    {
      SlotsAreFileNodes(nodes, files, g);
      FileFrame(files[g].h, nodes, files[g].chain, nodes');
    }
    StepKinds(nodes, files, f, nodes', v');
    StepLeak(nodes, files, f, nodes', v');
  }

  lemma StepLeak(nodes: Nodes, files: map<nat, FileView>, f: nat, nodes': Nodes, v': FileView)
    requires FilesSound(nodes, files) && FileStepped(nodes, files, f, nodes', v')
    requires Dirs(nodes') == Dirs(nodes)
    ensures NoLeak(nodes', files[f := v'])
  {
    hide FileOk;
    SlotsAreFileNodes(nodes, files, f);
    FileSlotsUpdate(files, f, v');
    LeakAlgebra(nodes.Keys, Dirs(nodes).Keys, FileSlots(files), files[f].Slots(), v'.Slots());
  }

  lemma LeakAlgebra(used: set<nat>, dirs: set<nat>, owned: set<nat>, was: set<nat>, now: set<nat>)
    requires used == dirs + owned && was !! dirs
    ensures used - was + now == dirs + (owned - was + now)
  {
  }

  /** Directories and heads are what they were. */
  lemma StepKinds(nodes: Nodes, files: map<nat, FileView>, f: nat, nodes': Nodes, v': FileView)
    requires f in files && files[f].h.head == f && FileOk(files[f].h, nodes, files[f].chain)
    requires FileStepped(nodes, files, f, nodes', v')
    ensures Heads(nodes') == Heads(nodes) && Dirs(nodes') == Dirs(nodes)
  {
    hide FileOk;
    hide Footprint;
    SlotsAreFileNodes(nodes, files, f);
    SlotsAreFileNodes(nodes', files[f := v'], f);
    forall s ensures s in nodes' && nodes'[s].Directory? <==> s in nodes && nodes[s].Directory? {
      if s in nodes' && s !in v'.Slots() { assert s in nodes && s !in files[f].Slots(); }
    }
    forall s ensures s in nodes' && nodes'[s].File? <==> s in nodes && nodes[s].File? {
      if s in nodes' && s !in v'.Slots() { assert s in nodes && s !in files[f].Slots(); }
    }
  }

  lemma FileSlotsUpdate(files: map<nat, FileView>, f: nat, v': FileView)
    requires f in files
    requires forall g :: g in files && g != f ==> files[g].Slots() !! files[f].Slots()
    ensures FileSlots(files[f := v']) == FileSlots(files) - files[f].Slots() + v'.Slots()
  {
    var files' := files[f := v'];
    forall s | s in FileSlots(files) - files[f].Slots() ensures s in FileSlots(files') {
      var g :| g in files && s in files[g].Slots();
      assert g in files' && s in files'[g].Slots();
    }
    forall s | s in v'.Slots() ensures s in FileSlots(files') {
      assert s in files'[f].Slots();
    }
    forall s | s in FileSlots(files') ensures s in FileSlots(files) - files[f].Slots() + v'.Slots() {
      var g :| g in files' && s in files'[g].Slots();
      if g != f { assert s in files[g].Slots(); }
    }
  }

  // ── Directory changes ─────────────────────────────────────────────────────

  /** Changing a directory, adding one or removing one leaves every file alone. */
  lemma DirChangeSound(nodes: Nodes, files: map<nat, FileView>, nodes': Nodes)
    requires FilesSound(nodes, files)
    requires forall s :: s in nodes && !nodes[s].Directory? <==> s in nodes' && !nodes'[s].Directory?
    requires forall s :: s in nodes && !nodes[s].Directory? ==> nodes'[s] == nodes[s]
    ensures FilesSound(nodes', files)
    ensures forall g :: g in files ==> FileBytes(files[g].h, nodes') == FileBytes(files[g].h, nodes)
  {
    hide FileOk;
    hide Footprint;
    hide FileBytes;
    hide NoLeak;
    forall g | g in files
      ensures FileOk(files[g].h, nodes', files[g].chain)
      ensures FileBytes(files[g].h, nodes') == FileBytes(files[g].h, nodes)
    {
      SlotsAreFileNodes(nodes, files, g);
      FileFrame(files[g].h, nodes, files[g].chain, nodes');
    }
    assert Heads(nodes') == Heads(nodes);
    DirChangeLeak(nodes, files, nodes');
  }

  lemma DirChangeLeak(nodes: Nodes, files: map<nat, FileView>, nodes': Nodes)
    requires NoLeak(nodes, files)
    requires forall f :: f in files ==> files[f].h.head == f && FileOk(files[f].h, nodes, files[f].chain)
    requires forall s :: s in nodes && !nodes[s].Directory? <==> s in nodes' && !nodes'[s].Directory?
    ensures NoLeak(nodes', files)
  {
    hide FileOk;
    hide Footprint;
    forall s | s in nodes' ensures s in Dirs(nodes').Keys + FileSlots(files) {
      if !nodes'[s].Directory? { assert s in nodes && s in FileSlots(files); }
    }
    forall s | s in FileSlots(files) ensures s in nodes' {
      var g :| g in files && s in files[g].Slots();
      SlotsAreFileNodes(nodes, files, g);
    }
  }

  /** An empty new file. */
  function NewFile(): Node { File(0, [], None, []) }

  function NewView(head: nat): FileView {
    FileView(Handle(head, 0, None, [None], map[], {}, false), [])
  }

  lemma NewFileOk(nodes: Nodes, s: nat)
    requires s in nodes && nodes[s] == NewFile()
    ensures FileOk(NewView(s).h, nodes, []) && NewView(s).Slots() == {s} && NewView(s).h.head == s
    ensures NewView(s).chain == []
  {
    var h := NewView(s).h;
    assert forall i: nat :: Need(i, 0) == 0;
    assert DiskView(nodes, s, []).slotMap == [None];
  }

  /** A new head in a free slot. */
  lemma AddFileSound(nodes: Nodes, files: map<nat, FileView>, s: nat)
    requires FilesSound(nodes, files) && s !in nodes
    ensures FilesSound(nodes[s := NewFile()], files[s := NewView(s)])
    ensures Dirs(nodes[s := NewFile()]) == Dirs(nodes) && Heads(nodes[s := NewFile()]) == Heads(nodes) + {s}
    ensures forall g :: g in files ==> FileBytes(files[g].h, nodes[s := NewFile()]) == FileBytes(files[g].h, nodes)
  {
    var nodes', files' := nodes[s := NewFile()], files[s := NewView(s)];
    hide Footprint;
    hide FileOk;
    hide NoLeak;
    hide NewView;
    hide NewFile;
    NewFileOk(nodes', s);
    AddKinds(nodes, s);
    forall g | g in files
      ensures FileOk(files[g].h, nodes', files[g].chain) && s !in files[g].Slots()
      ensures FileBytes(files[g].h, nodes') == FileBytes(files[g].h, nodes)
    {
      SlotsAreFileNodes(nodes, files, g);
      FileFrame(files[g].h, nodes, files[g].chain, nodes');
    }
    AddLeak(nodes, files, s);
  }

  lemma AddKinds(nodes: Nodes, s: nat)
    requires s !in nodes
    ensures Dirs(nodes[s := NewFile()]) == Dirs(nodes) && Heads(nodes[s := NewFile()]) == Heads(nodes) + {s}
  {
  }

  lemma AddLeak(nodes: Nodes, files: map<nat, FileView>, s: nat)
    requires NoLeak(nodes, files) && s !in nodes && s !in files && NewView(s).Slots() == {s}
    ensures NoLeak(nodes[s := NewFile()], files[s := NewView(s)])
  {
    hide Footprint;
    hide NewView;
    var files' := files[s := NewView(s)];
    assert Dirs(nodes[s := NewFile()]) == Dirs(nodes);
    forall x ensures x in FileSlots(files') <==> x in FileSlots(files) || x == s {
      if x == s { assert x in files'[s].Slots(); }
      if x in FileSlots(files) {
        var g :| g in files && x in files[g].Slots();
        assert x in files'[g].Slots();
      }
    }
  }

  /** A whole file removed. */
  lemma RemoveFileSound(nodes: Nodes, files: map<nat, FileView>, f: nat, nodes': Nodes)
    requires FilesSound(nodes, files) && f in files
    requires nodes' == nodes - files[f].Slots()
    ensures FilesSound(nodes', files - {f})
    ensures Dirs(nodes') == Dirs(nodes) && Heads(nodes') == Heads(nodes) - {f}
    ensures forall g :: g in files && g != f ==> FileBytes(files[g].h, nodes') == FileBytes(files[g].h, nodes)
  {
    hide Footprint;
    hide FileOk;
    hide NoLeak;
    SlotsAreFileNodes(nodes, files, f);
    forall g | g in files - {f}
      ensures FileOk(files[g].h, nodes', files[g].chain)
      ensures FileBytes(files[g].h, nodes') == FileBytes(files[g].h, nodes)
    {
      SlotsAreFileNodes(nodes, files, g);
      FileFrame(files[g].h, nodes, files[g].chain, nodes');
    }
    RemoveLeak(nodes, files, f, nodes');
  }

  lemma RemoveLeak(nodes: Nodes, files: map<nat, FileView>, f: nat, nodes': Nodes)
    requires NoLeak(nodes, files) && f in files && nodes' == nodes - files[f].Slots()
    requires forall g :: g in files && g != f ==> files[g].Slots() !! files[f].Slots()
    requires files[f].Slots() !! Dirs(nodes).Keys
    ensures NoLeak(nodes', files - {f})
  {
    hide Footprint;
    var files' := files - {f};
    assert Dirs(nodes') == Dirs(nodes);
    forall x ensures x in FileSlots(files') <==> x in FileSlots(files) && x !in files[f].Slots() {
      if x in FileSlots(files) && x !in files[f].Slots() {
        var g :| g in files && x in files[g].Slots();
        assert x in files'[g].Slots();
      }
      if x in FileSlots(files') {
        var g :| g in files' && x in files'[g].Slots();
        assert files[g].Slots() !! files[f].Slots();
      }
    }
  }

  // ── The directory tree ────────────────────────────────────────────────────

  type Tree = map<nat, seq<DirEntry>>

  function EntrySlots(es: seq<DirEntry>): set<nat> {
    set i | 0 <= i < |es| :: es[i].slot
  }

  ghost predicate DistinctEntries(es: seq<DirEntry>) {
    forall i, j :: 0 <= i < j < |es| ==> es[i].name != es[j].name && es[i].slot != es[j].slot
  }

  /** Entries carry the kind of what they list. */
  ghost predicate KindsRight(es: seq<DirEntry>, dirs: set<nat>) {
    forall i :: 0 <= i < |es| ==> (es[i].kind.DirectoryKind? <==> es[i].slot in dirs)
  }

  /** Every non-root directory or file is listed in its parent, and nothing else is listed. */
  ghost predicate ListedOnce(listed: map<nat, set<nat>>, parent: map<nat, nat>) {
    && (forall s {:trigger parent[s]} :: s in parent ==> parent[s] in listed && s in listed[parent[s]])
    && (forall d, s {:trigger s in listed[d]} :: d in listed && s in listed[d] ==> s in parent && parent[s] == d)
  }

  function Listed(dirs: Tree): (m: map<nat, set<nat>>)
    ensures m.Keys == dirs.Keys
  {
    map d | d in dirs :: EntrySlots(dirs[d])
  }

  lemma ListAdds(listed: map<nat, set<nat>>, parent: map<nat, nat>, d: nat, s: nat, isDir: bool)
    requires ListedOnce(listed, parent) && d in listed && s !in parent && s !in listed
    ensures ListedOnce((if isDir then listed[s := {}] else listed)[d := listed[d] + {s}], parent[s := d])
  {
  }

  lemma ListRemoves(listed: map<nat, set<nat>>, parent: map<nat, nat>, d: nat, s: nat)
    requires ListedOnce(listed, parent) && d in listed && s in listed[d] && s != d
    requires s in listed ==> listed[s] == {}
    ensures ListedOnce(listed[d := listed[d] - {s}] - {s}, parent - {s})
  {
    var listed', parent' := listed[d := listed[d] - {s}] - {s}, parent - {s};
    forall x | x in parent' ensures parent'[x] in listed' && x in listed'[parent'[x]] {
      assert parent[x] in listed && x in listed[parent[x]];
    }
  }

  lemma ListMoves(listed: map<nat, set<nat>>, parent: map<nat, nat>, d: nat, s: nat, d': nat)
    requires ListedOnce(listed, parent) && d in listed && s in listed[d] && d' in listed
    ensures var cut := listed[d := listed[d] - {s}];
            ListedOnce(cut[d' := cut[d'] + {s}], parent[s := d'])
  {
  }

  /**
   Every directory and file except the root is listed exactly once: in its parent directory, under
   one name, with the right kind.
   */
  ghost predicate TreeSound(dirs: Tree, heads: set<nat>, root: nat, parent: map<nat, nat>) {
    && root in dirs && root !in parent
    && parent.Keys + {root} == dirs.Keys + heads && dirs.Keys !! heads
    && ListedOnce(Listed(dirs), parent)
    && (forall d :: d in dirs ==> DistinctEntries(dirs[d]) && KindsRight(dirs[d], dirs.Keys))
  }

  predicate HasName(es: seq<DirEntry>, name: string) {
    exists i :: 0 <= i < |es| && es[i].name == name
  }

  lemma AppendEntry(es: seq<DirEntry>, e: DirEntry, dirs: set<nat>)
    requires DistinctEntries(es) && KindsRight(es, dirs)
    requires !HasName(es, e.name) && e.slot !in EntrySlots(es) && (e.kind.DirectoryKind? <==> e.slot in dirs)
    ensures DistinctEntries(es + [e]) && KindsRight(es + [e], dirs)
    ensures EntrySlots(es + [e]) == EntrySlots(es) + {e.slot}
  {
    var r := es + [e];
    assert r[|es|] == e;
    forall i | 0 <= i < |es| ensures r[i] == es[i] && es[i].slot in EntrySlots(es) && es[i].slot in EntrySlots(r) {
    }
  }

  /** Entry k of a directory left out. */
  function Without(es: seq<DirEntry>, k: nat): seq<DirEntry>
    requires k < |es|
  {
    es[..k] + es[k + 1..]
  }

  lemma WithoutEntry(es: seq<DirEntry>, k: nat, dirs: set<nat>)
    requires k < |es| && DistinctEntries(es) && KindsRight(es, dirs)
    ensures DistinctEntries(Without(es, k)) && KindsRight(Without(es, k), dirs)
    ensures EntrySlots(Without(es, k)) == EntrySlots(es) - {es[k].slot}
    ensures es[k].slot in EntrySlots(es) && (es[k].kind.DirectoryKind? <==> es[k].slot in dirs)
  {
    var w := Without(es, k);
    forall s | s in EntrySlots(es) - {es[k].slot} ensures s in EntrySlots(w) {
      var i :| 0 <= i < |es| && es[i].slot == s;
      assert w[if i < k then i else i - 1].slot == s;
    }
    forall s | s in EntrySlots(w) ensures s in EntrySlots(es) - {es[k].slot} {
      var i :| 0 <= i < |w| && w[i].slot == s;
      assert es[if i < k then i else i + 1].slot == s;
    }
  }

  /** Kinds depend on the listed slots only. */
  lemma KindsFrame(es: seq<DirEntry>, dirs: set<nat>, dirs': set<nat>)
    requires KindsRight(es, dirs)
    requires forall s :: s in EntrySlots(es) ==> (s in dirs <==> s in dirs')
    ensures KindsRight(es, dirs')
  {
    forall i | 0 <= i < |es| ensures es[i].kind.DirectoryKind? <==> es[i].slot in dirs' {
      assert es[i].slot in EntrySlots(es);
    }
  }

  /** A new leaf listed in directory d. */
  lemma AddEntrySound(dirs: Tree, heads: set<nat>, root: nat, parent: map<nat, nat>, d: nat, e: DirEntry, dirs': Tree,
                      heads': set<nat>)
    requires TreeSound(dirs, heads, root, parent)
    requires d in dirs && !HasName(dirs[d], e.name) && e.slot !in dirs && e.slot !in heads
    requires dirs' == (if e.kind.DirectoryKind? then dirs[e.slot := []] else dirs)[d := dirs[d] + [e]]
    requires heads' == if e.kind.DirectoryKind? then heads else heads + {e.slot}
    ensures TreeSound(dirs', heads', root, parent[e.slot := d])
  {
    hide EntrySlots;
    hide DistinctEntries;
    hide KindsRight;
    hide HasName;
    hide ListedOnce;
    hide Listed;
    NotListed(dirs, parent, e.slot);
    AddKeys(dirs, heads, root, parent, d, e, dirs', heads');
    AddKindsRight(dirs, d, e, dirs');
    ListAdds(Listed(dirs), parent, d, e.slot, e.kind.DirectoryKind?);
    ListedAdd(dirs, d, e);
  }

  lemma AddKeys(dirs: Tree, heads: set<nat>, root: nat, parent: map<nat, nat>, d: nat, e: DirEntry, dirs': Tree,
                heads': set<nat>)
    requires root in dirs && root !in parent && parent.Keys + {root} == dirs.Keys + heads && dirs.Keys !! heads
    requires d in dirs && e.slot !in dirs && e.slot !in heads
    requires dirs' == (if e.kind.DirectoryKind? then dirs[e.slot := []] else dirs)[d := dirs[d] + [e]]
    requires heads' == if e.kind.DirectoryKind? then heads else heads + {e.slot}
    ensures root in dirs' && root !in parent[e.slot := d] && e.slot !in parent
    ensures parent[e.slot := d].Keys + {root} == dirs'.Keys + heads' && dirs'.Keys !! heads'
  {
    assert e.slot !in parent.Keys && e.slot != root;
  }

  lemma AddKindsRight(dirs: Tree, d: nat, e: DirEntry, dirs': Tree)
    requires forall c :: c in dirs ==> DistinctEntries(dirs[c]) && KindsRight(dirs[c], dirs.Keys)
    requires d in dirs && !HasName(dirs[d], e.name) && e.slot !in dirs
    requires forall c :: c in dirs ==> e.slot !in EntrySlots(dirs[c])
    requires dirs' == (if e.kind.DirectoryKind? then dirs[e.slot := []] else dirs)[d := dirs[d] + [e]]
    ensures forall c :: c in dirs' ==> DistinctEntries(dirs'[c]) && KindsRight(dirs'[c], dirs'.Keys)
    ensures EntrySlots(dirs[d] + [e]) == EntrySlots(dirs[d]) + {e.slot} && EntrySlots([]) == {}
  {
    hide EntrySlots;
    hide DistinctEntries;
    hide KindsRight;
    hide HasName;
    EmptyDir(dirs'.Keys);
    forall c | c in dirs ensures KindsRight(dirs[c], dirs'.Keys) {
      KindsFrame(dirs[c], dirs.Keys, dirs'.Keys);
    }
    AppendEntry(dirs[d], e, dirs'.Keys);
  }

  lemma ListedAdd(dirs: Tree, d: nat, e: DirEntry)
    requires d in dirs && EntrySlots(dirs[d] + [e]) == EntrySlots(dirs[d]) + {e.slot} && EntrySlots([]) == {}
    ensures Listed(dirs)[d] == EntrySlots(dirs[d])
    ensures Listed(dirs[d := dirs[d] + [e]]) == Listed(dirs)[d := Listed(dirs)[d] + {e.slot}]
    ensures e.slot != d ==>
              Listed(dirs[e.slot := []][d := dirs[d] + [e]]) ==
                Listed(dirs)[e.slot := {}][d := Listed(dirs)[d] + {e.slot}]
  {
    hide EntrySlots;
  }

  lemma ListedCut(dirs: Tree, d: nat, k: nat)
    requires d in dirs && k < |dirs[d]| && EntrySlots(Without(dirs[d], k)) == EntrySlots(dirs[d]) - {dirs[d][k].slot}
    ensures Listed(dirs)[d] == EntrySlots(dirs[d])
    ensures Listed(dirs[d := Without(dirs[d], k)]) == Listed(dirs)[d := Listed(dirs)[d] - {dirs[d][k].slot}]
    ensures forall c :: c in dirs ==> Listed(dirs)[c] == EntrySlots(dirs[c])
  {
    hide EntrySlots;
  }

  lemma ListedDrop(dirs: Tree, s: nat)
    ensures Listed(dirs - {s}) == Listed(dirs) - {s}
  {
    hide EntrySlots;
  }

  lemma EmptyDir(dirs: set<nat>)
    ensures DistinctEntries([]) && KindsRight([], dirs) && EntrySlots([]) == {}
  {
  }

  lemma NotListed(dirs: Tree, parent: map<nat, nat>, s: nat)
    requires ListedOnce(Listed(dirs), parent) && s !in parent
    ensures forall d :: d in dirs ==> s !in EntrySlots(dirs[d])
  {
    forall d | d in dirs ensures s !in EntrySlots(dirs[d]) {
      assert Listed(dirs)[d] == EntrySlots(dirs[d]);
    }
  }

  /** The entry's slot is listed in d and nowhere else. */
  lemma ListedHere(dirs: Tree, parent: map<nat, nat>, d: nat, s: nat)
    requires ListedOnce(Listed(dirs), parent) && d in dirs && s in EntrySlots(dirs[d])
    ensures s in parent && parent[s] == d && forall c :: c in dirs && c != d ==> s !in EntrySlots(dirs[c])
  {
    assert s in Listed(dirs)[d];
    forall c | c in dirs && c != d ensures s !in EntrySlots(dirs[c]) {
      assert Listed(dirs)[c] == EntrySlots(dirs[c]);
    }
  }

  /** A leaf unlisted and gone. */
  lemma RemoveEntrySound(dirs: Tree, heads: set<nat>, root: nat, parent: map<nat, nat>, d: nat, k: nat)
    requires TreeSound(dirs, heads, root, parent) && d in dirs && k < |dirs[d]|
    requires dirs[d][k].slot in dirs ==> dirs[d][k].slot != d && dirs[dirs[d][k].slot] == []
    ensures var s := dirs[d][k].slot;
            TreeSound(dirs[d := Without(dirs[d], k)] - {s}, heads - {s}, root, parent - {s})
  {
    var s := dirs[d][k].slot;
    var dirs', parent' := dirs[d := Without(dirs[d], k)] - {s}, parent - {s};
    hide EntrySlots;
    hide DistinctEntries;
    hide KindsRight;
    hide Without;
    hide ListedOnce;
    hide Listed;
    WithoutEntry(dirs[d], k, dirs.Keys);
    EmptyDir(dirs.Keys);
    ListedHere(dirs, parent, d, s);
    ListedCut(dirs, d, k);
    ListedDrop(dirs[d := Without(dirs[d], k)], s);
    ListRemoves(Listed(dirs), parent, d, s);
    RemoveKeys(dirs, heads, root, parent, d, s, Without(dirs[d], k));
    RemoveKinds(dirs, d, s, Without(dirs[d], k));
  }

  lemma RemoveKeys(dirs: Tree, heads: set<nat>, root: nat, parent: map<nat, nat>, d: nat, s: nat, es: seq<DirEntry>)
    requires parent.Keys + {root} == dirs.Keys + heads && dirs.Keys !! heads && root in dirs && root !in parent
    requires d in dirs && s in parent && d != s
    ensures var dirs' := dirs[d := es] - {s};
            root in dirs' && (parent - {s}).Keys + {root} == dirs'.Keys + (heads - {s}) && dirs'.Keys !! (heads - {s})
  {
    assert (dirs[d := es] - {s}).Keys == dirs.Keys - {s};
    assert (parent - {s}).Keys == parent.Keys - {s};
  }

  lemma RemoveKinds(dirs: Tree, d: nat, s: nat, es: seq<DirEntry>)
    requires forall c :: c in dirs ==> DistinctEntries(dirs[c]) && KindsRight(dirs[c], dirs.Keys)
    requires forall c :: c in dirs && c != d ==> s !in EntrySlots(dirs[c])
    requires DistinctEntries(es) && KindsRight(es, dirs.Keys) && s !in EntrySlots(es) && d in dirs
    ensures var dirs' := dirs[d := es] - {s};
            forall c :: c in dirs' ==> DistinctEntries(dirs'[c]) && KindsRight(dirs'[c], dirs'.Keys)
  {
    hide EntrySlots;
    hide DistinctEntries;
    hide KindsRight;
    var dirs' := dirs[d := es] - {s};
    assert dirs'.Keys == dirs.Keys - {s};
    forall c | c in dirs' ensures DistinctEntries(dirs'[c]) && KindsRight(dirs'[c], dirs'.Keys) {
      var was := if c == d then es else dirs[c];
      KindsFrame(was, dirs.Keys, dirs'.Keys);
    }
  }

  /** A listed node moved to another name or directory. */
  lemma MoveEntrySound(dirs: Tree, heads: set<nat>, root: nat, parent: map<nat, nat>, d: nat, k: nat, d': nat,
                       name: string)
    requires TreeSound(dirs, heads, root, parent) && d in dirs && k < |dirs[d]| && d' in dirs
    requires !HasName(dirs[d := Without(dirs[d], k)][d'], name)
    ensures var e := dirs[d][k]; var cut := dirs[d := Without(dirs[d], k)];
            TreeSound(cut[d' := cut[d'] + [DirEntry(name, e.slot, e.kind)]], heads, root, parent[e.slot := d'])
  {
    hide EntrySlots;
    hide DistinctEntries;
    hide KindsRight;
    hide Without;
    hide ListedOnce;
    hide Listed;
    hide HasName;
    var e := dirs[d][k];
    var cut := dirs[d := Without(dirs[d], k)];
    var new_ := DirEntry(name, e.slot, e.kind);
    WithoutEntry(dirs[d], k, dirs.Keys);
    EmptyDir(dirs.Keys);
    ListedHere(dirs, parent, d, e.slot);
    ListedCut(dirs, d, k);
    AppendEntry(cut[d'], new_, dirs.Keys);
    ListMoves(Listed(dirs), parent, d, e.slot, d');
    ListedAdd(cut, d', new_);
    var dirs' := cut[d' := cut[d'] + [new_]];
    assert dirs'.Keys == dirs.Keys && parent[e.slot := d'].Keys == parent.Keys;
    forall c | c in dirs' ensures DistinctEntries(dirs'[c]) && KindsRight(dirs'[c], dirs'.Keys) {
    }
  }
}
