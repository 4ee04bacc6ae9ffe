/**
 Crash visibility over whole runs: in a run of reads, appends and flushes, every state that the disk
 goes through, one per slot written or wiped, shows a reader exactly the bytes of the latest flush.
 */
module AppendRuns {
  import opened Wrappers
  import opened Bytes
  import opened VaultFs
  import opened Container
  import opened Handle
  import opened FileState
  import opened IndexChain
  import opened FsState
  import opened DirSteps
  import opened FlushLimits
  import opened OpenFiles
  import opened Flushes
  import opened WriteSteps
  import opened Truncation
  import opened Fuse
  import opened RunSteps
  import opened Runs

  /** Writes between the size that the disk may show and the end of the file. */
  predicate Appends(b: seq<byte>, shown: nat, ops: seq<FileOp>)
    decreases |ops|
  {
    ops == [] || (
      && (ops[0].WriteOp? ==> shown <= ops[0].at <= |b|) && !ops[0].ShrinkOp?
      && Appends(After(b, ops[0]), if ops[0].FlushOp? then |b| else shown, ops[1..]))
  }

  /** What a reader of the disk sees after one operation on a file that held b. */
  function Shown(flushed: seq<byte>, b: seq<byte>, op: FileOp, done: bool): seq<byte> {
    if op.FlushOp? && done then b else flushed
  }

  /** The disk states recorded from `from` up to `to` show the old bytes; only the last may show the new ones. */
  ghost predicate StepShows(history: seq<Nodes>, from: nat, to: nat, f: nat, was: seq<byte>, now: seq<byte>) {
    && from <= to <= |history|
    && forall k :: from <= k < to ==>
         DiskBytes(history[k], f, []) == was || (k == to - 1 && DiskBytes(history[k], f, []) == now)
  }

  /** The whole run: `cuts[i]` disk states had been recorded when operation i had returned. */
  ghost predicate RunShows(history: seq<Nodes>, from: nat, f: nat, flushed: seq<byte>, b: seq<byte>,
                           ops: seq<FileOp>, dones: seq<bool>, cuts: seq<nat>)
    decreases |ops|
  {
    && |dones| == |ops| == |cuts|
    && if ops == [] then from == |history| else
         var now := Shown(flushed, b, ops[0], dones[0]);
         && StepShows(history, from, cuts[0], f, flushed, now)
         && RunShows(history, cuts[0], f, now, After(b, ops[0]), ops[1..], dones[1..], cuts[1..])
  }

  /** The bytes of the latest flush. */
  function Latest(flushed: seq<byte>, b: seq<byte>, ops: seq<FileOp>, dones: seq<bool>): seq<byte>
    requires |dones| == |ops|
    decreases |ops|
  {
    if ops == [] then flushed
    else Latest(Shown(flushed, b, ops[0], dones[0]), After(b, ops[0]), ops[1..], dones[1..])
  }

  /** Handle fh of file f has appended to what the disk shows. */
  ghost predicate Ahead(fs: VenomFuse, fh: nat, f: nat, flushed: seq<byte>)
    reads fs, fs.container, fs.container.store, fs.inodes, fs.openFiles.Values
  {
    && fs.Valid() && fh in fs.openFiles && fs.openFiles[fh].headSlot == f
    && Appending(fs.HandleAt(fh).h, fs.container.nodes) && DiskBytes(fs.container.nodes, f, []) == flushed
  }

  /** What such a disk shows is a prefix of the file. */
  lemma AheadShowsPrefix(fs: VenomFuse, fh: nat, f: nat, flushed: seq<byte>)
    requires Ahead(fs, fh, f, flushed)
    ensures flushed <= fs.Now().BytesOf(f)
  {
    hide VnmContainer.Valid;
    hide VenomFuse.TableOk;
    hide Sound;
    hide Behind;
    var v := fs.HandleAt(fh);
    fs.ViewIs(fh);
    HandleParts(fs.Now(), fh);
    BehindShowsPrefix(v.h, fs.container.nodes);
  }

  method AppendStep(fs: VenomFuse, fh: nat, op: FileOp, ghost f: nat, ghost flushed: seq<byte>, ghost shown: nat)
    returns (done: bool, out: seq<byte>)
    requires Ahead(fs, fh, f, flushed) && |flushed| <= shown
    requires Appends(fs.Now().BytesOf(f), shown, [op]) && Short(|fs.Now().BytesOf(f)|)
    modifies fs`files, fs.container, fs.container.store, fs.openFiles.Values
    ensures OpStepped(fs.container, fh, f, op, old(MarkOf(fs, fh)), MarkOf(fs, fh), done, out)
    ensures Ahead(fs, fh, f, Shown(flushed, old(fs.Now().BytesOf(f)), op, done))
    ensures OthersKept(old(fs.Now()), fs.Now(), f)
    ensures fs.Now().BytesOf(f) == After(old(fs.Now().BytesOf(f)), op)
    ensures old(fs.container.history) <= fs.container.history
    ensures StepShows(fs.container.history, |old(fs.container.history)|, |fs.container.history|, f, flushed,
                      Shown(flushed, old(fs.Now().BytesOf(f)), op, done))
  {
    hide VnmContainer.Valid;
    hide Sound;
    hide State.BytesOf;
    hide OthersKept;
    hide OnlyHandle;
    hide VenomFuse.TableOk;
    hide FileBytes;
    hide DiskBytes;
    hide Appending;
    hide RecordedSize;
    hide ReadThrough;
    hide WriteStepped;
    hide FlushStepped;
    NowHolding(fs, fh, f);
    DiskLength(fs.container.nodes, f);
    done, out := true, [];
    match op {
      case ReadOp(offset, size) =>
        var r := fs.OpRead(fh, offset, size);
        out := r.value;
        ReadAppends(old(fs.HandleAt(fh)).h, fs.HandleAt(fh).h, fs.container.nodes);
      case WriteOp(at, data) =>
        done := AppendWrite(fs, fh, f, at, data);
      case FlushOp =>
        done := AppendFlush(fs, fh, f);
    }
    fs.ViewIs(fh);
  }

  lemma ReadAppends(h: Handle, h': Handle, nodes: Nodes)
    requires ReadThrough(h, h', nodes)
    ensures Appending(h, nodes) ==> Appending(h', nodes)
  {
    hide Appending;
  }

  /** The write of such a run: every disk state shows what the disk showed. */
  method AppendWrite(fs: VenomFuse, fh: nat, ghost f: nat, at: nat, data: seq<byte>) returns (done: bool)
    requires fs.Valid() && fh in fs.openFiles && fs.openFiles[fh].headSlot == f
    requires RecordedSize(fs.container.nodes, f) <= at <= fs.openFiles[fh].totalSize
    requires Appending(fs.HandleAt(fh).h, fs.container.nodes)
    modifies fs`files, fs.container, fs.container.store, fs.openFiles.Values
    ensures fs.Valid() && OthersKept(old(fs.Now()), fs.Now(), f) && OnlyHandle(old(fs.Now()), fs.Now(), fh)
    ensures fs.Now().BytesOf(f) == Spliced(old(fs.Now()).BytesOf(f), at, data)
    ensures WriteStepped(fs.container, at, data, old(MarkOf(fs, fh)), MarkOf(fs, fh), done)
    ensures Appending(fs.HandleAt(fh).h, fs.container.nodes) && old(fs.container.history) <= fs.container.history
    ensures DiskBytes(fs.container.nodes, f, []) == old(DiskBytes(fs.container.nodes, f, []))
    ensures Shows(fs.container.history, |old(fs.container.history)|, f, old(DiskBytes(fs.container.nodes, f, [])))
  {
    hide VnmContainer.Valid;
    hide Sound;
    hide State.BytesOf;
    hide OthersKept;
    hide OnlyHandle;
    hide VenomFuse.TableOk;
    hide DiskBytes;
    hide Appending;
    hide RecordedSize;
    hide Shows;
    hide Touched;
    hide WrittenThrough;
    hide ChunkTooLarge;
    hide Filled;
    hide Settled;
    hide WritesOut;
    var r;
    ghost var filled;
    r, filled := fs.OpWrite(fh, at, data);
    done := r.Ok?;
    NothingFree(fs.container);
  }

  /** The flush of such a run: only the last disk state of a flush that succeeds may show the file. */
  method AppendFlush(fs: VenomFuse, fh: nat, ghost f: nat) returns (done: bool)
    requires fs.Valid() && fh in fs.openFiles && fs.openFiles[fh].headSlot == f && Short(fs.openFiles[fh].totalSize)
    requires Appending(fs.HandleAt(fh).h, fs.container.nodes)
    modifies fs`files, fs.container, fs.container.store, fs.openFiles.Values
    ensures fs.AllKept(old(fs.Now()), f) && OnlyHandle(old(fs.Now()), fs.Now(), fh)
    ensures FlushStepped(fs.container, f, old(MarkOf(fs, fh)), MarkOf(fs, fh), done)
    ensures Appending(fs.HandleAt(fh).h, fs.container.nodes) && old(fs.container.history) <= fs.container.history
    ensures DiskBytes(fs.container.nodes, f, []) ==
              if done then old(fs.Now()).BytesOf(f) else old(DiskBytes(fs.container.nodes, f, []))
    ensures FlushShows(fs.container.history, |old(fs.container.history)|, f, old(DiskBytes(fs.container.nodes, f, [])),
                       fs.container.nodes, done)
  {
    hide VnmContainer.Valid;
    hide Sound;
    hide State.BytesOf;
    hide OthersKept;
    hide OnlyHandle;
    hide VenomFuse.TableOk;
    hide GoesThrough;
    hide BlocksFit;
    hide FlushShows;
    hide FlushedAs;
    hide FlushLeaves;
    hide FileKept;
    hide SlotsKept;
    hide FlushSeen;
    hide DiskBytes;
    hide Appending;
    ghost var m0 := fs.FileNow(fh);
    var r := fs.OpFlush(fh);
    done := r.Ok?;
    SeenParts(m0, fs.FileNow(fh), fs.container.history, |old(fs.container.history)|, done);
  }

  /**
   Any run, whatever fails in it: the file ends as the plain byte string does, every read returns that
   string's bytes, and every disk state on the way shows the bytes of the latest flush.
   */
  method AppendRun(fs: VenomFuse, fh: nat, ops: seq<FileOp>, ghost f: nat, ghost flushed: seq<byte>, ghost shown: nat)
    returns (dones: seq<bool>, outs: seq<seq<byte>>, ghost cuts: seq<nat>, ghost marks: seq<Mark>)
    requires Ahead(fs, fh, f, flushed) && |flushed| <= shown
    requires Appends(fs.Now().BytesOf(f), shown, ops) && AllSmall(fs.Now().BytesOf(f), ops)
    modifies fs`files, fs.container, fs.container.store, fs.openFiles.Values
    ensures |dones| == |ops| && Ahead(fs, fh, f, Latest(flushed, old(fs.Now().BytesOf(f)), ops, dones))
    ensures Traced(fs.container, fh, f, old(fs.Now().BytesOf(f)), ops, marks, dones, outs)
    ensures !CutShort(ops, marks, dones) && marks[0] == old(MarkOf(fs, fh)) && marks[|ops|] == MarkOf(fs, fh)
    ensures OthersKept(old(fs.Now()), fs.Now(), f)
    ensures fs.Now().BytesOf(f) == AfterAll(old(fs.Now().BytesOf(f)), ops)
    ensures outs == ReturnedAll(old(fs.Now().BytesOf(f)), ops)
    ensures old(fs.container.history) <= fs.container.history
    ensures RunShows(fs.container.history, |old(fs.container.history)|, f, flushed, old(fs.Now().BytesOf(f)), ops,
                     dones, cuts)
    decreases |ops|
  {
    hide VenomFuse.Views;
    hide VnmContainer.Valid;
    hide Sound;
    hide State.BytesOf;
    hide OthersKept;
    hide VenomFuse.TableOk;
    hide DiskBytes;
    hide After;
    hide Returned;
    hide Appending;
    hide Ahead;
    hide OpStepped;
    hide Accounted;
    hide Holding;
    hide Traced;
    hide CutShort;
    ghost var m, b := MarkOf(fs, fh), fs.Now().BytesOf(f);
    AheadHolding(fs, fh, f, flushed);
    if ops == [] {
      OthersRefl(fs.Now(), f);
      NothingTraced(fs.container, fh, f, b, m);
      return [], [], [], [m];
    }
    ghost var s, h0 := fs.Now(), fs.container.history;
    var done, out;
    AppendsFirst(b, shown, ops);
    AheadShowsPrefix(fs, fh, f, flushed);
    done, out := AppendStep(fs, fh, ops[0], f, flushed, shown);
    OutIs(fs.container, fh, f, ops[0], m, MarkOf(fs, fh), done, out);
    ghost var mid, h1 := fs.Now(), fs.container.history;
    ghost var now := Shown(flushed, b, ops[0], done);
    dones, outs, cuts, marks := AppendRun(fs, fh, ops[1..], f, now, if ops[0].FlushOp? then |b| else shown);
    OneTraced(fs.container, fh, f, b, ops, marks, dones, outs, m, done, out);
    OthersTrans(s, mid, fs.Now(), f);
    StepStillShows(h1, fs.container.history, |h0|, |h1|, f, flushed, now);
    ghost var before := cuts;
    dones, outs, cuts, marks := [done] + dones, [out] + outs, [|h1|] + cuts, [m] + marks;
    assert cuts[1..] == before;
  }

  lemma AheadHolding(fs: VenomFuse, fh: nat, f: nat, flushed: seq<byte>)
    requires Ahead(fs, fh, f, flushed)
    ensures Holding(fh, f, MarkOf(fs, fh), fs.Now().BytesOf(f)) && Accounted(fs.container.store.vol, MarkOf(fs, fh))
    ensures fs.HandleAt(fh).h.total == |fs.Now().BytesOf(f)|
  {
    NowHolding(fs, fh, f);
  }

  lemma AppendsFirst(b: seq<byte>, shown: nat, ops: seq<FileOp>)
    requires ops != [] && Appends(b, shown, ops)
    ensures Appends(b, shown, [ops[0]])
  {
    assert [ops[0]][1..] == [];
  }

  lemma StepStillShows(was: seq<Nodes>, history: seq<Nodes>, from: nat, to: nat, f: nat, b: seq<byte>, b': seq<byte>)
    requires StepShows(was, from, to, f, b, b') && was <= history
    ensures StepShows(history, from, to, f, b, b')
  {
    hide DiskBytes;
    assert forall k :: 0 <= k < |was| ==> history[k] == was[k];
  }

  /** Open a closed file without overflow chain and run: the disk shows the file as it was opened, then each flush. */
  method OpenAndAppend(fs: VenomFuse, ino: nat, ops: seq<FileOp>, ghost f: nat)
    returns (fh: nat, dones: seq<bool>, outs: seq<seq<byte>>, ghost cuts: seq<nat>, ghost marks: seq<Mark>)
    requires fs.Valid() && fs.inodes.SlotOfIno(ino) == Some(f) && f in fs.files && !fs.Now().IsOpen(f)
    requires fs.container.nodes[f].indexChain == None
    requires Appends(fs.Now().BytesOf(f), |fs.Now().BytesOf(f)|, ops) && AllSmall(fs.Now().BytesOf(f), ops)
    modifies fs, fs.container, fs.container.store, fs.openFiles.Values
    ensures var b := old(fs.Now().BytesOf(f));
            && |dones| == |ops| && Ahead(fs, fh, f, Latest(b, b, ops, dones))
            && OthersKept(old(fs.Now()), fs.Now(), f)
            && fs.Now().BytesOf(f) == AfterAll(b, ops) && outs == ReturnedAll(b, ops)
            && old(fs.container.history) <= fs.container.history
            && RunShows(fs.container.history, |old(fs.container.history)|, f, b, b, ops, dones, cuts)
    ensures Traced(fs.container, fh, f, old(fs.Now().BytesOf(f)), ops, marks, dones, outs)
    ensures Opened(old(fs.Now()), old(fs.container.store.free), old(fs.container.lost), fh, f, marks[0])
    ensures !CutShort(ops, marks, dones) && marks[|ops|] == MarkOf(fs, fh)
  {
    hide VnmContainer.Valid;
    hide Sound;
    hide State.BytesOf;
    hide State.IsOpen;
    hide OthersKept;
    hide VenomFuse.TableOk;
    hide Ahead;
    hide RunShows;
    hide Traced;
    hide CutShort;
    hide Opened;
    ghost var s, b := fs.Now(), fs.Now().BytesOf(f);
    fh := OpenAhead(fs, ino, f);
    ghost var mid := fs.Now();
    dones, outs, cuts, marks := AppendRun(fs, fh, ops, f, b, |b|);
    OthersTrans(s, mid, fs.Now(), f);
  }

  /** The open of a closed file without overflow chain: the disk shows all of it. */
  method OpenAhead(fs: VenomFuse, ino: nat, ghost f: nat) returns (fh: nat)
    requires fs.Valid() && fs.inodes.SlotOfIno(ino) == Some(f) && f in fs.files && !fs.Now().IsOpen(f)
    requires fs.container.nodes[f].indexChain == None
    modifies fs
    ensures Opened(old(fs.Now()), fs.container.store.free, fs.container.lost, fh, f, MarkOf(fs, fh))
    ensures Ahead(fs, fh, f, old(fs.Now().BytesOf(f))) && OthersKept(old(fs.Now()), fs.Now(), f)
    ensures fs.Now().BytesOf(f) == old(fs.Now().BytesOf(f))
    ensures forall of :: of in fs.openFiles.Values ==> of in old(fs.openFiles.Values) || fresh(of)
  {
    hide VnmContainer.Valid;
    hide Sound;
    hide State.BytesOf;
    hide State.IsOpen;
    hide OthersKept;
    hide VenomFuse.TableOk;
    hide DiskBytes;
    hide Appending;
    HeadIsFile(fs.Now(), f);
    var r := fs.OpOpen(ino);
    fh := r.value;
    fs.ViewIs(fh);
  }
}
