/**
 Whole runs: any sequence of reads, dense writes, flushes and shrinks through one handle behaves as the
 same sequence on a plain byte string, and any sequence of recipient changes as the same on two lists.
 */
module Runs {
  import opened Wrappers
  import opened Bytes
  import opened Layout
  import opened Cipher
  import opened Header
  import opened Recipients
  import opened RecipientTable
  import opened VaultFs
  import opened Container
  import opened Handle
  import opened FileState
  import opened FlushLimits
  import opened IndexChain
  import opened Fs
  import opened FsState
  import opened DirSteps
  import opened OpenFiles
  import opened Flushes
  import opened WriteSteps
  import opened Truncation
  import opened Fuse
  import opened RunSteps
  import SlotStore

  // ── Runs of one file ──────────────────────────────────────────────────────

  ghost function MarkOf(fs: VenomFuse, fh: nat): Mark
    reads fs, fs.container, fs.container.store, fs.inodes, fs.openFiles.Values
  {
    Mark(fs.Now(), fs.HandleAt(fh), fs.container.store.free, fs.container.lost)
  }

  /** The container accounts for every slot. */
  lemma AllAccounted(fs: VenomFuse, fh: nat)
    requires fs.container.Valid()
    ensures Accounted(fs.container.store.vol, MarkOf(fs, fh))
  {
    hide NodeAt;
    hide Sound;
    hide SlotStore.Volume.IsDataSlot;
    var c := fs.container;
    assert forall x :: x in c.store.free <==> x in c.Free();
  }

  lemma NowHolding(fs: VenomFuse, fh: nat, f: nat)
    requires fs.Valid() && fh in fs.openFiles && fs.openFiles[fh].headSlot == f
    ensures Holding(fh, f, MarkOf(fs, fh), fs.Now().BytesOf(f)) && Accounted(fs.container.store.vol, MarkOf(fs, fh))
    ensures fs.HandleAt(fh).h.total == |fs.Now().BytesOf(f)|
  {
    hide VnmContainer.Valid;
    hide Sound;
    hide State.BytesOf;
    hide VenomFuse.TableOk;
    hide Accounted;
    fs.ViewIs(fh);
    HandleParts(fs.Now(), fh);
    AllAccounted(fs, fh);
    fs.HandleTotal(fh);
    TotalIsLength(fs.Now(), f);
  }

  /**
   Run one operation through handle fh. It need not succeed for the file to become what it should; only
   the failed flush of a file with an overflow chain may leave something behind.
   */
  method RunOne(fs: VenomFuse, fh: nat, op: FileOp, ghost f: nat) returns (kept: bool, done: bool, out: seq<byte>)
    requires fs.Valid() && fh in fs.openFiles && fs.openFiles[fh].headSlot == f && InDomain(fs.Now().BytesOf(f), op)
    modifies fs`files, fs.container, fs.container.store, fs.openFiles.Values
    ensures OpStepped(fs.container, fh, f, op, old(MarkOf(fs, fh)), MarkOf(fs, fh), done, out)
    ensures Accounted(fs.container.store.vol, MarkOf(fs, fh))
    ensures kept ==> fs.Valid() && OthersKept(old(fs.Now()), fs.Now(), f)
    ensures kept ==> fs.Now().BytesOf(f) == After(old(fs.Now().BytesOf(f)), op)
    ensures kept ==> CacheStep(old(fs.HandleAt(fh)).h, fs.HandleAt(fh).h, op, done)
    ensures kept <==> done || !op.FlushOp? || Short(old(fs.HandleAt(fh)).h.total)
  {
    hide WriteStepped;
    hide FlushStepped;
    hide VenomFuse.Views;
    hide VnmContainer.Valid;
    hide Sound;
    hide State.BytesOf;
    hide OthersKept;
    hide OnlyHandle;
    hide VenomFuse.TableOk;
    hide FileBytes;
    hide FewDirty;
    hide ReadCache;
    hide ReadThrough;
    hide Accounted;
    NowHolding(fs, fh, f);
    ghost var h := fs.HandleAt(fh).h;
    kept, done, out := true, true, [];
    match op {
      case ReadOp(offset, size) =>
        var r := fs.OpRead(fh, offset, size);
        out := r.value;
        BookkeepingOfRead(h, fs.HandleAt(fh).h, fs.container.nodes);
      case WriteOp(at, data) =>
        done := WriteOnce(fs, fh, f, at, data);
      case FlushOp =>
        kept, done := FlushOnce(fs, fh, f);
      case ShrinkOp(newSize) =>
        var r := fs.OpTruncate(fh, newSize);
    }
    fs.ViewIs(fh);
    AllAccounted(fs, fh);
  }

  /** The write of a run. */
  method WriteOnce(fs: VenomFuse, fh: nat, ghost f: nat, at: nat, data: seq<byte>) returns (done: bool)
    requires fs.Valid() && fh in fs.openFiles && fs.openFiles[fh].headSlot == f && at <= fs.openFiles[fh].totalSize
    modifies fs`files, fs.container, fs.container.store, fs.openFiles.Values
    ensures fs.Valid() && OthersKept(old(fs.Now()), fs.Now(), f) && OnlyHandle(old(fs.Now()), fs.Now(), fh)
    ensures fs.Now().BytesOf(f) == Spliced(old(fs.Now()).BytesOf(f), at, data)
    ensures CacheStep(old(fs.HandleAt(fh)).h, fs.HandleAt(fh).h, WriteOp(at, data), done)
    ensures WriteStepped(fs.container, at, data, old(MarkOf(fs, fh)), MarkOf(fs, fh), done)
  {
    hide VnmContainer.Valid;
    hide Sound;
    hide State.BytesOf;
    hide OthersKept;
    hide OnlyHandle;
    hide VenomFuse.TableOk;
    hide FewDirty;
    hide ReadCache;
    hide Touched;
    hide WrittenThrough;
    hide ChunkTooLarge;
    hide Filled;
    hide Settled;
    hide WritesOut;
    ghost var h := fs.HandleAt(fh).h;
    var r;
    ghost var filled;
    r, filled := fs.OpWrite(fh, at, data);
    done := r.Ok?;
    BookkeepingOfWrite(h, fs.HandleAt(fh).h, done);
    NothingFree(fs.container);
  }

  lemma NothingFree(c: VnmContainer)
    ensures c.Free() == {} ==> c.store.free == []
  {
    if c.store.free != [] { assert c.store.free[0] in c.Free(); }
  }

  /** The flush of a run. */
  method FlushOnce(fs: VenomFuse, fh: nat, ghost f: nat) returns (kept: bool, done: bool)
    requires fs.Valid() && fh in fs.openFiles && fs.openFiles[fh].headSlot == f
    modifies fs`files, fs.container, fs.container.store, fs.openFiles.Values
    ensures fs.container.Valid() && OnlyHandle(old(fs.Now()), fs.Now(), fh)
    ensures kept ==>
              fs.Valid() && OthersKept(old(fs.Now()), fs.Now(), f) && fs.Now().BytesOf(f) == old(fs.Now()).BytesOf(f)
    ensures kept ==> CacheStep(old(fs.HandleAt(fh)).h, fs.HandleAt(fh).h, FlushOp, done)
    ensures kept <==> done || Short(old(fs.HandleAt(fh)).h.total)
    ensures FlushStepped(fs.container, f, old(MarkOf(fs, fh)), MarkOf(fs, fh), done)
  {
    hide VnmContainer.Valid;
    hide Sound;
    hide State.BytesOf;
    hide OthersKept;
    hide OnlyHandle;
    hide VenomFuse.TableOk;
    hide FewDirty;
    hide GoesThrough;
    hide BlocksFit;
    hide FlushShows;
    hide FlushedAs;
    hide FlushLeaves;
    hide FileKept;
    hide SlotsKept;
    hide DiskBytes;
    hide Appending;
    ghost var h := fs.HandleAt(fh).h;
    var small := ChunkCount(fs.openFiles[fh].totalSize) <= MAX_DIRECT_SLOTS + 1;
    var r := fs.OpFlush(fh);
    kept, done := r.Ok? || small, r.Ok?;
    BookkeepingOfFlush(h, fs.HandleAt(fh).h, done);
  }

  /**
   Refinement over whole runs: the results are those of the plain byte string, the file ends as that
   string, and every other file keeps its bytes, whatever fails on the way. Only the failed flush of a file
   too long for a head without overflow chain ends the run.
   */
  method Run(fs: VenomFuse, fh: nat, ops: seq<FileOp>, ghost f: nat)
    returns (kept: bool, dones: seq<bool>, outs: seq<seq<byte>>, ghost marks: seq<Mark>)
    requires fs.Valid() && fh in fs.openFiles && fs.openFiles[fh].headSlot == f && AllInDomain(fs.Now().BytesOf(f), ops)
    modifies fs`files, fs.container, fs.container.store, fs.openFiles.Values
    ensures Traced(fs.container, fh, f, old(fs.Now().BytesOf(f)), ops, marks, dones, outs)
    ensures marks[0] == old(MarkOf(fs, fh)) && marks[|dones|] == MarkOf(fs, fh)
    ensures (kept <==> !CutShort(ops, marks, dones)) && (kept ==> |dones| == |ops|)
    ensures kept ==> fs.Valid() && OthersKept(old(fs.Now()), fs.Now(), f)
    ensures kept ==> fs.Now().BytesOf(f) == AfterAll(old(fs.Now().BytesOf(f)), ops)
    ensures kept ==> outs == ReturnedAll(old(fs.Now().BytesOf(f)), ops)
    ensures kept && AllDone(dones) && NoShrink(ops) && FewDirty(old(fs.HandleAt(fh)).h) ==> FewDirty(fs.HandleAt(fh).h)
    ensures kept && ReadOnly(ops) && ReadCache(old(fs.HandleAt(fh)).h) ==> ReadCache(fs.HandleAt(fh).h)
    ensures AllSmall(old(fs.Now().BytesOf(f)), ops) || (forall i :: 0 <= i < |ops| ==> !ops[i].FlushOp?) ==> kept
    decreases |ops|
  {
    hide VnmContainer.Valid;
    hide Sound;
    hide State.BytesOf;
    hide OthersKept;
    hide VenomFuse.TableOk;
    hide VenomFuse.Views;
    hide FileBytes;
    hide InDomain;
    hide After;
    hide Returned;
    hide FewDirty;
    hide ReadCache;
    hide OpStepped;
    hide Accounted;
    hide Holding;
    hide Traced;
    hide CutShort;
    ghost var m, b := MarkOf(fs, fh), fs.Now().BytesOf(f);
    NowHolding(fs, fh, f);
    if ops == [] {
      OthersRefl(fs.Now(), f);
      NothingTraced(fs.container, fh, f, b, m);
      return true, [], [], [m];
    }
    ghost var s := fs.Now();
    var first, out;
    kept, first, out := RunOne(fs, fh, ops[0], f);
    ghost var mid := fs.Now();
    OutIs(fs.container, fh, f, ops[0], m, MarkOf(fs, fh), first, out);
    if !kept {
      StoppedHere(fs.container, fh, f, b, ops, m, MarkOf(fs, fh), out);
      return false, [false], [out], [m, MarkOf(fs, fh)];
    }
    var rest, outs';
    ghost var marks';
    kept, rest, outs', marks' := Run(fs, fh, ops[1..], f);
    OneTraced(fs.container, fh, f, b, ops, marks', rest, outs', m, first, out);
    dones, outs, marks := [first] + rest, [out] + outs', [m] + marks';
    if kept { OthersTrans(s, mid, fs.Now(), f); }
  }

  lemma OutIs(c: VnmContainer, fh: nat, f: nat, op: FileOp, m: Mark, m': Mark, done: bool, out: seq<byte>)
    requires OpStepped(c, fh, f, op, m, m', done, out)
    ensures out == Returned(m.s.BytesOf(f), op)
  {
    hide OnlyHandle;
    hide Returned;
    hide WriteStepped;
    hide FlushStepped;
  }

  /** The moment after the open of file f, closed so far: only its handle is new, and that is what the disk records. */
  ghost predicate Opened(s: State, free: seq<nat>, lost: set<nat>, fh: nat, f: nat, m: Mark) {
    && f in s.files && fh !in s.views && m.s == WithHandle(s, fh, f) && m.v == m.s.views[fh]
    && m.free == free && m.lost == lost
  }

  /**
   The same from the open on: unless the file was shrunk, dirty chunks are always in memory and few, and
   a handle that was only read never has more chunks in memory than the cache holds.
   */
  method OpenAndRun(fs: VenomFuse, ino: nat, ops: seq<FileOp>, ghost f: nat)
    returns (fh: nat, kept: bool, dones: seq<bool>, outs: seq<seq<byte>>, ghost marks: seq<Mark>)
    requires fs.Valid() && fs.inodes.SlotOfIno(ino) == Some(f) && f in fs.files && !fs.Now().IsOpen(f)
    requires AllInDomain(fs.Now().BytesOf(f), ops)
    modifies fs, fs.container, fs.container.store, fs.openFiles.Values
    ensures fh in fs.openFiles && fs.openFiles[fh].headSlot == f
    ensures fh !in old(fs.openFiles) && fs.openFiles == old(fs.openFiles)[fh := fs.openFiles[fh]]
    ensures fresh(fs.openFiles[fh])
    ensures Traced(fs.container, fh, f, old(fs.Now().BytesOf(f)), ops, marks, dones, outs)
    ensures Opened(old(fs.Now()), old(fs.container.store.free), old(fs.container.lost), fh, f, marks[0])
    ensures marks[|dones|] == MarkOf(fs, fh)
    ensures (kept <==> !CutShort(ops, marks, dones)) && (kept ==> |dones| == |ops|)
    ensures kept ==>
              && fs.Valid() && OthersKept(old(fs.Now()), fs.Now(), f)
              && fs.Now().BytesOf(f) == AfterAll(old(fs.Now().BytesOf(f)), ops)
              && outs == ReturnedAll(old(fs.Now().BytesOf(f)), ops)
    ensures kept && AllDone(dones) && NoShrink(ops) ==> FewDirty(fs.HandleAt(fh).h)
    ensures kept && ReadOnly(ops) ==> ReadCache(fs.HandleAt(fh).h)
    ensures AllSmall(old(fs.Now().BytesOf(f)), ops) || (forall i :: 0 <= i < |ops| ==> !ops[i].FlushOp?) ==> kept
  {
    hide VnmContainer.Valid;
    hide Sound;
    hide State.BytesOf;
    hide State.IsOpen;
    hide OthersKept;
    hide VenomFuse.TableOk;
    hide DiskBytes;
    hide Appending;
    hide FewDirty;
    hide ReadCache;
    hide OpenedView;
    hide Traced;
    hide CutShort;
    ghost var s := fs.Now();
    var r := fs.OpOpen(ino);
    fh := r.value;
    ghost var mid := fs.Now();
    fs.ViewIs(fh);
    assert Opened(s, fs.container.store.free, fs.container.lost, fh, f, MarkOf(fs, fh));
    BookkeepingOfOpen(fs.container.nodes, f, s.files[f].chain);
    assert forall of :: of in fs.openFiles.Values ==> of in old(fs.openFiles.Values) || fresh(of);
    kept, dones, outs, marks := Run(fs, fh, ops, f);
    if kept { OthersTrans(s, mid, fs.Now(), f); }
  }

  /**
   A whole session: open, run, release. On success the file is closed again and the disk alone holds it. The
   release is one more flush, from the last moment of the run to `end`, and then the handle is dropped.
   */
  method Session(fs: VenomFuse, ino: nat, ops: seq<FileOp>, ghost f: nat)
    returns (kept: bool, closed: bool, dones: seq<bool>, outs: seq<seq<byte>>, ghost fh: nat, ghost marks: seq<Mark>,
             ghost end: Mark)
    requires fs.Valid() && fs.inodes.SlotOfIno(ino) == Some(f) && f in fs.files && !fs.Now().IsOpen(f)
    requires AllInDomain(fs.Now().BytesOf(f), ops)
    modifies fs, fs.container, fs.container.store, fs.openFiles.Values
    ensures Traced(fs.container, fh, f, old(fs.Now().BytesOf(f)), ops, marks, dones, outs)
    ensures Opened(old(fs.Now()), old(fs.container.store.free), old(fs.container.lost), fh, f, marks[0])
    ensures CutShort(ops, marks, dones) ==> !kept && !closed && MarkOf(fs, fh) == marks[|dones|]
    ensures !CutShort(ops, marks, dones) ==>
              && |dones| == |ops| && OpStepped(fs.container, fh, f, FlushOp, marks[|ops|], end, closed, [])
              && Accounted(fs.container.store.vol, end) && Ended(fs, fh, end, closed)
              && (kept <==> closed || Short(marks[|ops|].v.h.total))
    ensures kept ==>
              && fs.Valid() && OthersKept(old(fs.Now()), fs.Now(), f)
              && fs.Now().BytesOf(f) == AfterAll(old(fs.Now().BytesOf(f)), ops)
              && outs == ReturnedAll(old(fs.Now().BytesOf(f)), ops)
    ensures closed ==> kept && fs.openFiles == old(fs.openFiles)
    ensures AllSmall(old(fs.Now().BytesOf(f)), ops) ==> kept
  {
    hide AfterAll;
    hide ReturnedAll;
    hide Holding;
    hide AllSmall;
    hide AllInDomain;
    hide VnmContainer.Valid;
    hide Sound;
    hide State.BytesOf;
    hide State.IsOpen;
    hide OthersKept;
    hide VenomFuse.TableOk;
    hide VenomFuse.Views;
    hide FewDirty;
    hide ReadCache;
    hide OpStepped;
    hide Accounted;
    hide Traced;
    hide CutShort;
    hide Opened;
    hide Ended;
    ghost var s := fs.Now();
    var h;
    h, kept, dones, outs, marks := OpenAndRun(fs, ino, ops, f);
    fh, closed, end := h, false, MarkOf(fs, h);
    if !kept { return; }
    ghost var mid := fs.Now();
    SmallAtEnd(s.BytesOf(f), ops);
    NowHolding(fs, fh, f);
    assert forall of :: of in fs.openFiles.Values ==> of in old(fs.openFiles.Values) || fresh(of);
    kept, closed, end := Release(fs, h, f);
    if kept { OthersTrans(s, mid, fs.Now(), f); }
  }

  /** The handle is gone and its file as the disk has it, or nothing has happened since the flush failed. */
  ghost predicate Ended(fs: VenomFuse, fh: nat, end: Mark, closed: bool)
    reads fs, fs.container, fs.container.store, fs.inodes, fs.openFiles.Values
  {
    && fh in end.s.views && fs.Now() == (if closed then Closed(end.s, fh) else end.s)
    && end.free == fs.container.store.free && end.lost == fs.container.lost
  }

  lemma EndAccounted(fs: VenomFuse, fh: nat, end: Mark, closed: bool)
    requires fs.container.Valid() && Ended(fs, fh, end, closed)
    ensures Accounted(fs.container.store.vol, end)
  {
    hide VnmContainer.Valid;
    hide DiskView;
    AllAccounted(fs, fh);
  }

  /** The release at the end of a session. */
  method Release(fs: VenomFuse, fh: nat, ghost f: nat) returns (kept: bool, closed: bool, ghost end: Mark)
    requires fs.Valid() && fh in fs.openFiles && fs.openFiles[fh].headSlot == f
    modifies fs, fs.container, fs.container.store, fs.openFiles.Values
    ensures OpStepped(fs.container, fh, f, FlushOp, old(MarkOf(fs, fh)), end, closed, [])
    ensures Accounted(fs.container.store.vol, end) && Ended(fs, fh, end, closed)
    ensures kept ==> fs.AllKept(old(fs.Now()), f)
    ensures closed ==> fs.openFiles == old(fs.openFiles) - {fh}
    ensures kept <==> closed || Short(old(fs.HandleAt(fh)).h.total)
  {
    hide VnmContainer.Valid;
    hide Sound;
    hide State.BytesOf;
    hide OthersKept;
    hide OnlyHandle;
    hide VenomFuse.TableOk;
    hide GoesThrough;
    hide BlocksFit;
    hide FlushLeaves;
    hide FlushedAs;
    hide FileKept;
    hide SlotsKept;
    hide DiskBytes;
    hide DiskView;
    var small := ChunkCount(fs.openFiles[fh].totalSize) <= MAX_DIRECT_SLOTS + 1;
    var r;
    ghost var mid, left;
    r, mid, left := fs.OpRelease(fh);
    kept, closed := r.Ok? || small, r.Ok?;
    end := Mark(mid, FileView(left.h, left.chain), left.free, left.lost);
    EndAccounted(fs, fh, end, closed);
  }

  lemma {:induction false} SmallAtEnd(b: seq<byte>, ops: seq<FileOp>)
    ensures AllSmall(b, ops) ==> Short(|AfterAll(b, ops)|)
    decreases |ops|
  {
    if ops != [] { SmallAtEnd(After(b, ops[0]), ops[1..]); }
  }

  // ── The recipient table ───────────────────────────────────────────────────

  datatype RecipientOp = AddPassword(password: Password) | AddKey(recipient: PublicKey) | RemoveKey(index: nat)

  datatype RecipientLists = RecipientLists(passwords: seq<Password>, keys: seq<PublicKey>)

  /** A request that the table refuses changes nothing. */
  function Changed(t: RecipientLists, op: RecipientOp): RecipientLists {
    match op
    case AddPassword(p) => if |t.passwords| < MAX_PASSWORD_SLOTS then t.(passwords := t.passwords + [p]) else t
    case AddKey(k) => if |t.keys| < MAX_KEY_SLOTS then t.(keys := t.keys + [k]) else t
    case RemoveKey(i) => if i < |t.keys| then t.(keys := t.keys[..i] + t.keys[i + 1..]) else t
  }

  function ChangedAll(t: RecipientLists, ops: seq<RecipientOp>): RecipientLists
    decreases |ops|
  {
    if ops == [] then t else ChangedAll(Changed(t, ops[0]), ops[1..])
  }

  /** After any sequence of changes the table holds exactly the recipients of the two lists, in order. */
  method RunRecipients(file: ContainerFile, ops: seq<RecipientOp>)
    requires file.Valid()
    modifies file
    ensures file.Valid()
    ensures RecipientLists(file.pw, file.keys) == ChangedAll(old(RecipientLists(file.pw, file.keys)), ops)
    ensures RestKept(old(file.bytes), file.bytes)
    decreases |ops|
  {
    hide TableOk;
    hide RestKept;
    if ops == [] {
      RestSame(file.bytes);
      return;
    }
    ghost var b0 := file.bytes;
    SizeOk(file);
    match ops[0] {
      case AddPassword(p) => var r := file.AddPasswordRecipient(p);
      case AddKey(k) => var r := file.AddKeyRecipient(k);
      case RemoveKey(i) => var r := file.RemoveKeyRecipient(i);
    }
    ghost var b1 := file.bytes;
    RunRecipients(file, ops[1..]);
    RestTrans(b0, b1, file.bytes);
  }

  lemma SizeOk(file: ContainerFile)
    requires file.Valid()
    ensures |file.pw| <= MAX_PASSWORD_SLOTS && |file.keys| <= MAX_KEY_SLOTS
  {
  }

  lemma RestSame(b: seq<byte>)
    ensures RestKept(b, b)
  {
  }

  lemma RestTrans(b: seq<byte>, mid: seq<byte>, b': seq<byte>)
    requires RestKept(b, mid) && RestKept(mid, b')
    ensures RestKept(b, b')
  {
  }

  /**
   Who can open the container after any such run: exactly the current recipients, or a witness of a key
   collision or of a slot sealed in two ways is at hand.
   */
  lemma OnlyRecipientsOpen(file: ContainerFile, password: Password, sk: PrivateKey)
    returns (v: Option<Mistake>, w: Option<Mistake>)
    requires file.Valid()
    ensures v.None? ==> FirstPassword(file.x.suite, file.x.keying, file.bytes, password, 0, |file.pw|) ==
                          if password in file.pw then Some((file.x.master, Triple)) else None
    ensures v.Some? ==> PasswordMistake(file.x, file.bytes, file.pw, password, v.value)
    ensures w.None? ==> FirstKey(file.x.suite, file.x.keying, file.bytes, sk, 0, |file.keys|) ==
                          if file.x.keying.publicKey(sk) in file.keys then Some((file.x.master, file.x.cipher))
                          else None
    ensures w.Some? ==> KeyMistake(file.x, file.bytes, file.keys, sk, w.value)
  {
    hide PasswordsOk;
    hide KeysOk;
    hide HeadersOk;
    hide FirstPassword;
    hide FirstKey;
    hide PasswordMistake;
    hide KeyMistake;
    v := PasswordRecovers(file.x, file.bytes, file.pw, file.meta.kdfProfile, password, 0);
    w := KeyRecovers(file.x, file.bytes, file.keys, sk, 0);
    assert file.pw[0..] == file.pw && file.keys[0..] == file.keys;
  }
}
