/**
 The file operations of vnmcore/src/fs/fuse.rs over one mounted container: directories, inodes and
 the table of open handles. `Valid` says that every used slot is owned exactly once. An operation keeps
 it, failing or not, except where its contract names the slots that lose their owner or the file that is
 no longer dense. The bytes of every other file stay.
 */
module Fuse {
  import opened Wrappers
  import opened Bytes
  import opened VaultFs
  import opened Container
  import opened Handle
  import opened IndexChain
  import opened FileState
  import opened OpenFiles
  import opened Flushes
  import opened WriteSteps
  import opened Fs
  import opened FsState
  import opened DirSteps
  import opened FlushLimits
  import opened FlushSteps
  import opened Truncation
  import FreeList

  const ROOT_INO: nat := 1

  /** Which slot each inode number stands for, and the next number. */
  datatype Numbers = Numbers(slotOf: map<nat, nat>, next: nat)

  /**
   A number keeps its slot, unless the slot is one of these, which lose theirs; a number that is new was not
   given out before.
   */
  ghost predicate NumbersKept(m: Numbers, m': Numbers, gone: set<nat>) {
    && m.next <= m'.next
    && (forall i :: i in m.slotOf && m.slotOf[i] in gone ==> i !in m'.slotOf)
    && (forall i :: i in m.slotOf && m.slotOf[i] !in gone ==> i in m'.slotOf && m'.slotOf[i] == m.slotOf[i])
    && (forall i :: i in m'.slotOf && i !in m.slotOf ==> m.next <= i < m'.next)
  }

  lemma NumbersStay(m: Numbers)
    ensures NumbersKept(m, m, {})
  {
  }

  /** The slots that lose their numbers in the first n steps. */
  function GoneBy(gone: seq<set<nat>>, n: nat): set<nat>
    requires n <= |gone|
  {
    if n == 0 then {} else GoneBy(gone, n - 1) + gone[n - 1]
  }

  /** Over any run of operations no number is ever given to a second slot, and one is lost only with its slot. */
  lemma {:induction false} NumbersOverRun(trace: seq<Numbers>, gone: seq<set<nat>>, n: nat)
    requires |trace| == |gone| + 1 && n <= |gone|
    requires forall i :: i in trace[0].slotOf ==> i < trace[0].next
    requires forall k :: 0 <= k < |gone| ==> NumbersKept(trace[k], trace[k + 1], gone[k])
    ensures NumbersKept(trace[0], trace[n], GoneBy(gone, n))
  {
    if n > 0 {
      NumbersOverRun(trace, gone, n - 1);
      ghost var a, b, c := trace[0], trace[n - 1], trace[n];
      assert NumbersKept(b, c, gone[n - 1]);
      forall i | i in a.slotOf && a.slotOf[i] in GoneBy(gone, n) ensures i !in c.slotOf {
        if i in b.slotOf { assert b.slotOf[i] == a.slotOf[i]; }
      }
    }
  }

  /** Inode numbers and slots, each the inverse of the other. */
  class InodeMap {
    var slotToIno: map<nat, nat>
    var inoToSlot: map<nat, nat>
    var nextIno: nat

    ghost predicate Valid()
      reads this
    {
      && (forall s :: s in slotToIno ==>
          slotToIno[s] in inoToSlot && inoToSlot[slotToIno[s]] == s && slotToIno[s] < nextIno)
      && (forall i :: i in inoToSlot ==> inoToSlot[i] in slotToIno && slotToIno[inoToSlot[i]] == i)
    }

    ghost function Given(): Numbers
      reads this
    {
      Numbers(inoToSlot, nextIno)
    }

    constructor (rootSlot: nat)
      ensures Valid() && slotToIno == map[rootSlot := ROOT_INO] && inoToSlot == map[ROOT_INO := rootSlot]
      ensures nextIno == ROOT_INO + 1
    {
      slotToIno := map[rootSlot := ROOT_INO];
      inoToSlot := map[ROOT_INO := rootSlot];
      nextIno := 2;
    }

    /** The known number of a slot, or a number never given out before. */
    method GetOrAlloc(slot: nat) returns (ino: nat)
      requires Valid()
      modifies this
      ensures Valid() && slotToIno.Keys == old(slotToIno).Keys + {slot}
      ensures slotToIno[slot] == ino && inoToSlot[ino] == slot
      ensures NumbersKept(old(Given()), Given(), {})
      ensures if slot in old(slotToIno) then ino == old(slotToIno)[slot] else ino == old(nextIno)
    {
      if slot in slotToIno { return slotToIno[slot]; }
      ino := nextIno;
      nextIno := nextIno + 1;
      slotToIno := slotToIno[slot := ino];
      inoToSlot := inoToSlot[ino := slot];
    }

    function SlotOfIno(ino: nat): Option<nat>
      reads this
    {
      if ino in inoToSlot then Some(inoToSlot[ino]) else None
    }

    lemma KnowsSlot(ino: nat)
      requires Valid()
      ensures SlotOfIno(ino).Some? ==> SlotOfIno(ino).value in slotToIno
    {
    }

    method RemoveSlot(slot: nat)
      requires Valid()
      modifies this
      ensures Valid() && slotToIno == old(slotToIno) - {slot}
      ensures NumbersKept(old(Given()), Given(), {slot}) && nextIno == old(nextIno)
    {
      if slot in slotToIno {
        inoToSlot := inoToSlot - {slotToIno[slot]};
        slotToIno := slotToIno - {slot};
      }
    }
  }

  class VenomFuse {
    const container: VnmContainer
    const inodes: InodeMap
    var openFiles: map<nat, OpenFile>
    var nextFh: nat
    ghost const root: nat
    ghost var files: map<nat, FileView>
    ghost var parent: map<nat, nat>

    constructor (container: VnmContainer, root: nat, ghost files: map<nat, FileView>, ghost parent: map<nat, nat>)
      requires container.Valid()
      requires Sound(State(container.nodes, files, root, parent, map[], {root}))
      ensures Valid() && fresh(inodes)
      ensures this.container == container && openFiles == map[] && nextFh == 1
      ensures Now() == State(container.nodes, files, root, parent, map[], {root})
    {
      hide Sound;
      hide VnmContainer.Valid;
      this.container := container;
      this.root := root;
      this.files := files;
      this.parent := parent;
      inodes := new InodeMap(root);
      openFiles := map[];
      nextFh := 1;
      new;
      assert Views() == map[];
      assert inodes.slotToIno.Keys == {root};
    }

    /** The open handles as values. */
    ghost function Views(): (v: map<nat, FileView>)
      reads `openFiles, openFiles.Values
      ensures v.Keys == openFiles.Keys
    {
      map fh | fh in openFiles :: FileView(openFiles[fh].View(), openFiles[fh].chainSlots)
    }

    /** One open handle as a value. */
    ghost function HandleAt(fh: nat): FileView
      reads `openFiles, openFiles.Values
    {
      if fh in openFiles then FileView(openFiles[fh].View(), openFiles[fh].chainSlots) else NewView(0)
    }

    /** The file of handle fh at this moment. */
    ghost function FileNow(fh: nat): Instant
      reads `openFiles, openFiles.Values, container, container.store
    {
      Instant(HandleAt(fh).h, HandleAt(fh).chain, container.nodes, container.store.free, container.lost)
    }

    /** The driver's state as a value. */
    ghost function Now(): State
      reads this, container, inodes, openFiles.Values
    {
      State(container.nodes, files, root, parent, Views(), inodes.slotToIno.Keys)
    }

    ghost predicate Valid()
      reads this, container, container.store, inodes, openFiles.Values
    {
      container.Valid() && inodes.Valid() && Sound(Now()) && TableOk()
    }

    /** Handle numbers are below the next one, handles are distinct objects, inode numbers lead to their heads. */
    ghost predicate TableOk()
      reads `openFiles, `nextFh, inodes
    {
      && (forall a, b :: a in openFiles && b in openFiles && a != b ==> openFiles[a] != openFiles[b])
      && (forall fh :: fh in openFiles ==>
            fh < nextFh && inodes.SlotOfIno(openFiles[fh].ino) == Some(openFiles[fh].headSlot))
    }

    // ── Through an open handle ──────────────────────────────────────────────

    lemma NextIsFree()
      requires TableOk()
      ensures nextFh !in openFiles
    {
    }

    lemma Distinct(fh: nat)
      requires TableOk() && fh in openFiles
      ensures forall x :: x in openFiles && x != fh ==> openFiles[x] != openFiles[fh]
    {
    }

    /** After an operation that only changed handle fh and the container. */
    ghost method HandleDone(fh: nat, s: State)
      requires fh in openFiles && s.views.Keys == openFiles.Keys && Sound(s)
      requires container.Valid() && inodes.Valid() && TableOk()
      requires files == s.files && root == s.root && parent == s.parent && inodes.slotToIno.Keys == s.known
      requires forall x :: x in openFiles && x != fh ==>
                 FileView(openFiles[x].View(), openFiles[x].chainSlots) == s.views[x]
      requires openFiles[fh].headSlot == s.views[fh].h.head && openFiles[fh].Valid(container.nodes)
      requires Touched(s.views[fh].h, s.views[fh].chain, s.nodes, openFiles[fh].View(), openFiles[fh].chainSlots,
                       container.nodes)
      modifies this`files
      ensures Valid()
      ensures OnlyHandle(s, Now(), fh)
      ensures OthersKept(s, Now(), openFiles[fh].headSlot)
      ensures Now().BytesOf(openFiles[fh].headSlot) == openFiles[fh].Bytes(container.nodes)
    {
      hide VnmContainer.Valid;
      hide Sound;
      hide FileOk;
      hide Touched;
      hide FileBytes;
      hide OthersKept;
      hide VenomFuse.TableOk;
      hide VenomFuse.Views;
      hide OpenFile.View;
      var v := FileView(openFiles[fh].View(), openFiles[fh].chainSlots);
      ViewsAfter(fh, s);
      HandleStep(s, fh, container.nodes, v);
      files := files[openFiles[fh].headSlot := v];
    }

    /** The same when the file of the handle need not be sound. */
    ghost method HandleChanged(fh: nat, s: State)
      requires fh in openFiles && s.views.Keys == openFiles.Keys
      requires files == s.files && root == s.root && parent == s.parent && inodes.slotToIno.Keys == s.known
      requires forall x :: x in openFiles && x != fh ==>
                 FileView(openFiles[x].View(), openFiles[x].chainSlots) == s.views[x]
      requires openFiles[fh].headSlot == s.views[fh].h.head
      modifies this`files
      ensures OnlyHandle(s, Now(), fh)
      ensures Now().BytesOf(openFiles[fh].headSlot) == openFiles[fh].Bytes(container.nodes)
    {
      hide FileBytes;
      hide VenomFuse.Views;
      hide OpenFile.View;
      ViewsAfter(fh, s);
      files := files[openFiles[fh].headSlot := HandleAt(fh)];
    }

    lemma ViewsAfter(fh: nat, s: State)
      requires fh in openFiles && s.views.Keys == openFiles.Keys
      requires forall x :: x in openFiles && x != fh ==>
                 FileView(openFiles[x].View(), openFiles[x].chainSlots) == s.views[x]
      ensures Views() == s.views[fh := FileView(openFiles[fh].View(), openFiles[fh].chainSlots)]
      ensures openFiles[fh].View().head == openFiles[fh].headSlot
      ensures openFiles[fh].Valid(container.nodes) ==
                FileOk(openFiles[fh].View(), container.nodes, openFiles[fh].chainSlots)
      ensures openFiles[fh].Bytes(container.nodes) == FileBytes(openFiles[fh].View(), container.nodes)
    {
      hide FileOk;
      hide FileBytes;
    }

    method OpRead(fh: nat, offset: nat, size: nat) returns (r: Result<seq<byte>, Errno>)
      requires Valid()
      modifies this`files, openFiles.Values
      ensures Valid()
      ensures fh !in openFiles ==> r == Err(ENOENT)
      ensures fh in openFiles ==>
                var f := openFiles[fh].headSlot; var b := old(Now()).BytesOf(f);
                && r == Ok(Slice(b, offset, size))
                && Now().BytesOf(f) == b && OthersKept(old(Now()), Now(), f)
      ensures fh in openFiles ==>
                && ReadThrough(old(HandleAt(fh)).h, HandleAt(fh).h, container.nodes)
                && HandleAt(fh).chain == old(HandleAt(fh)).chain
                && OnlyHandle(old(Now()), Now(), fh)
    {
      hide ReadThrough;
      hide OnlyHandle;
      hide InodeMap.Valid;
      hide Dense;
      hide VnmContainer.Valid;
      hide Sound;
      hide AfterHandle;
      hide State.BytesOf;
      hide FileOk;
      hide Touched;
      hide FileBytes;
      hide Appending;
      hide OthersKept;
      hide VenomFuse.TableOk;
      if fh !in openFiles { return Err(ENOENT); }
      ghost var s := Now();
      Distinct(fh);
      HandleParts(s, fh);
      var of := openFiles[fh];
      r := of.Read(container, offset, size);
      ReadTouches(s.views[fh].h, of.View(), of.chainSlots, container.nodes);
      HandleDone(fh, s);
    }

    /**
     A write up to the end of the file splices the data into it; past the end the bytes in between are what the
     chunks hold, and the file is sound only if no chunk is short. Neither touches any other file. A write past
     the recorded size is not seen by a reader of the disk, whichever chunks it stores.
     */
    method OpWrite(fh: nat, offset: nat, data: seq<byte>) returns (r: Result<nat, Errno>, ghost filled: Handle)
      requires Valid()
      modifies this`files, container, container.store, openFiles.Values
      ensures container.Valid() && old(container.history) <= container.history
      ensures fh !in openFiles ==>
                r == (if data == [] then Ok(0) else Err(ENOENT)) && Valid() && Now() == old(Now())
      ensures fh in openFiles && offset <= old(HandleAt(fh)).h.total ==>
                var f := openFiles[fh].headSlot;
                && Valid() && OthersKept(old(Now()), Now(), f)
                && Now().BytesOf(f) == Spliced(old(Now()).BytesOf(f), offset, data)
      ensures fh in openFiles ==>
                && (Valid() <==> FileOk(filled, old(container.nodes), old(HandleAt(fh)).chain))
                && Now().BytesOf(openFiles[fh].headSlot) == FileBytes(filled, old(container.nodes))
                && SlotsKept(old(Now()), container.nodes, openFiles[fh].headSlot)
                && (r.Ok? ==> r.value == |data| && container.lost == old(container.lost))
                && (r.Err? ==> container.Free() == {} || ChunkTooLarge(container, HandleAt(fh).h))
      ensures fh in openFiles ==> WrittenThrough(old(HandleAt(fh)).h, HandleAt(fh).h, r.Ok?)
      ensures fh in openFiles ==>
                && Filled(old(HandleAt(fh)).h, old(container.nodes), old(HandleAt(fh)).chain, offset, data, filled)
                && (r.Ok? <==> WritesOut(container, filled, |old(container.store.free)|))
                && Settled(old(FileNow(fh)).(h := filled), FileNow(fh), r.Ok?)
      ensures fh in openFiles ==>
                && OnlyHandle(old(Now()), Now(), fh)
                && HandleAt(fh).chain == old(HandleAt(fh)).chain
                && Touched(old(HandleAt(fh)).h, old(HandleAt(fh)).chain, old(container.nodes), HandleAt(fh).h,
                           HandleAt(fh).chain, container.nodes)
      ensures fh in openFiles && old(Appending(HandleAt(fh).h, container.nodes))
              && old(RecordedSize(container.nodes, HandleAt(fh).h.head)) <= offset ==>
                StillAppending(old(HandleAt(fh)).h, old(container.nodes), HandleAt(fh).h, container.nodes,
                               container.history, |old(container.history)|)
    {
      hide OnlyHandle;
      hide VnmContainer.Valid;
      hide Sound;
      hide AfterHandle;
      hide State.BytesOf;
      hide VenomFuse.TableOk;
      hide FileOk;
      hide Touched;
      hide FileBytes;
      hide Behind;
      hide Appending;
      hide StillAppending;
      hide Shows;
      hide RecordedSize;
      hide DiskBytes;
      hide DirtyCached;
      hide OthersKept;
      hide VnmContainer.Free;
      hide VnmContainer.Fits;
      hide Filled;
      hide WritesOut;
      hide Settled;
      filled := HandleAt(fh).h;
      if fh !in openFiles {
        if data == [] { return Ok(0), filled; }
        return Err(ENOENT), filled;
      }
      ghost var s := Now();
      Distinct(fh);
      HandleParts(s, fh);
      var of := openFiles[fh];
      r, filled := of.Write(container, offset, data);
      AfterWrite(fh, s);
    }

    /** What a write has made of the file, seen from the driver. */
    ghost method AfterWrite(fh: nat, s: State)
      requires fh in openFiles && s.views.Keys == openFiles.Keys && Sound(s)
      requires container.Valid() && inodes.Valid() && TableOk()
      requires files == s.files && root == s.root && parent == s.parent && inodes.slotToIno.Keys == s.known
      requires forall x :: x in openFiles && x != fh ==>
                 FileView(openFiles[x].View(), openFiles[x].chainSlots) == s.views[x]
      requires openFiles[fh].headSlot == s.views[fh].h.head
      requires Touched(s.views[fh].h, s.views[fh].chain, s.nodes, openFiles[fh].View(), openFiles[fh].chainSlots,
                       container.nodes)
      modifies this`files
      ensures OnlyHandle(s, Now(), fh) && SlotsKept(s, container.nodes, openFiles[fh].headSlot)
      ensures Now().BytesOf(openFiles[fh].headSlot) == openFiles[fh].Bytes(container.nodes)
      ensures Valid() <==> openFiles[fh].Valid(container.nodes)
      ensures Valid() ==> OthersKept(s, Now(), openFiles[fh].headSlot)
    {
      hide VnmContainer.Valid;
      hide Sound;
      hide OnlyHandle;
      hide State.BytesOf;
      hide VenomFuse.TableOk;
      hide FileOk;
      hide FileBytes;
      hide OthersKept;
      hide SlotsKept;
      hide Footprint;
      OutsideIsOthers(s, fh, container.nodes);
      if openFiles[fh].Valid(container.nodes) {
        HandleDone(fh, s);
      } else {
        HandleChanged(fh, s);
        NotValid(fh);
        ViewIs(fh);
      }
    }

    /**
     Persist one handle. A failure keeps every file and its bytes, unless the overflow chain of this one
     was being rewritten: then every other file's slots stay.
     */
    method OpFlush(fh: nat) returns (r: Result<(), Errno>)
      requires Valid()
      modifies this`files, container, container.store, openFiles.Values
      ensures container.Valid() && old(container.history) <= container.history
      ensures fh !in openFiles ==> r == Ok(()) && Valid() && Now() == old(Now())
      ensures fh in openFiles ==>
                && FlushLeaves(container, old(FileNow(fh)), FileNow(fh), r.Ok?)
                && OnlyHandle(old(Now()), Now(), fh)
                && HandleAt(fh).h.cache == old(HandleAt(fh)).h.cache
                && HandleAt(fh).h.total == old(HandleAt(fh)).h.total
      ensures fh in openFiles && (Short(HandleAt(fh).h.total) || BlocksFit(container)) ==>
                (r.Ok? <==> Clean(old(HandleAt(fh)).h)
                            || GoesThrough(container, old(HandleAt(fh)).h, old(HandleAt(fh)).chain,
                                           |old(container.store.free)|,
                                           HandleAt(fh).h, container.nodes))
      ensures fh in openFiles && r.Ok? ==>
                var f := openFiles[fh].headSlot;
                && AllKept(old(Now()), f) && FileKept(old(FileNow(fh)), FileNow(fh))
                && openFiles[fh].dirty == {} && !openFiles[fh].metaDirty && container.lost == old(container.lost)
                && DiskBytes(container.nodes, f, openFiles[fh].chainSlots) == old(Now()).BytesOf(f)
                && FlushedAs(old(HandleAt(fh)).h, old(HandleAt(fh)).chain, old(container.nodes), container.nodes)
      ensures fh in openFiles && r.Err? ==>
                var f := openFiles[fh].headSlot;
                && SlotsKept(old(Now()), container.nodes, f) && HandleAt(fh).h.dirty == old(HandleAt(fh)).h.dirty
                && ((AllKept(old(Now()), f) && FileKept(old(FileNow(fh)), FileNow(fh)))
                    || ChainLost(old(FileNow(fh)), FileNow(fh)))
      ensures fh in openFiles ==>
                FlushSeen(old(FileNow(fh)), FileNow(fh), container.history, |old(container.history)|, r.Ok?)
      ensures fh in openFiles && r.Ok? && HandleAt(fh).h.chain == None ==>
                && Appending(HandleAt(fh).h, container.nodes)
                && DiskBytes(container.nodes, HandleAt(fh).h.head, []) == old(Now()).BytesOf(openFiles[fh].headSlot)
      ensures container.Wiped(old(container.nodes))
    {
      hide VnmContainer.Wiped;
      hide FileView.Slots;
      hide Footprint;
      hide OnlyHandle;
      hide SlotsKept;
      hide FlushedAs;
      hide VnmContainer.Valid;
      hide Sound;
      hide AfterHandle;
      hide State.BytesOf;
      hide VenomFuse.TableOk;
      hide FileOk;
      hide Touched;
      hide FileBytes;
      hide DiskBytes;
      hide Behind;
      hide RecordedSize;
      hide OthersKept;
      hide GoesThrough;
      hide ChainLost;
      hide FlushShows;
      hide FlushLeaves;
      hide FlushSeen;
      hide Appending;
      hide FlushFails;
      hide FileKept;
      hide OutsideKept;
      hide BlocksFit;
      hide Dense;
      ghost var past := container.history;
      container.LatestIsNow();
      if fh !in openFiles {
        container.NothingFreed();
        return Ok(());
      }
      ghost var s := Now();
      Distinct(fh);
      HandleParts(s, fh);
      var of := openFiles[fh];
      ghost var m0 := of.At(container);
      r := of.Flush(container);
      if r.Ok? { KeptParts(m0, FileNow(fh)); }
      container.FreedIsWiped(m0.nodes, past);
      AfterFlush(fh, s, m0, r.Ok?);
    }

    /** What a flush has made of the file, seen from the driver. */
    ghost method AfterFlush(fh: nat, s: State, m0: Instant, ok: bool)
      requires fh in openFiles && s.views.Keys == openFiles.Keys && Sound(s)
      requires container.Valid() && inodes.Valid() && TableOk()
      requires files == s.files && root == s.root && parent == s.parent && inodes.slotToIno.Keys == s.known
      requires forall x :: x in openFiles && x != fh ==>
                 FileView(openFiles[x].View(), openFiles[x].chainSlots) == s.views[x]
      requires openFiles[fh].headSlot == s.views[fh].h.head
      requires m0.h == s.views[fh].h && m0.chain == s.views[fh].chain && m0.nodes == s.nodes
      requires OutsideKept(m0, FileNow(fh)) && if ok then FileKept(m0, FileNow(fh)) else FlushFails(m0, FileNow(fh))
      modifies this`files
      ensures OnlyHandle(s, Now(), fh) && SlotsKept(s, container.nodes, openFiles[fh].headSlot)
      ensures FileKept(m0, FileNow(fh)) ==> AllKept(s, openFiles[fh].headSlot)
      ensures !ok ==> FileKept(m0, FileNow(fh)) || ChainLost(m0, FileNow(fh))
    {
      hide VnmContainer.Valid;
      hide Sound;
      hide OnlyHandle;
      hide State.BytesOf;
      hide VenomFuse.TableOk;
      hide FileOk;
      hide Touched;
      hide FileBytes;
      hide OthersKept;
      hide SlotsKept;
      hide ChainLost;
      hide FlushFails;
      hide OutsideKept;
      OutsideIsKept(m0, FileNow(fh), s, fh);
      HandleParts(s, fh);
      if !ok { FailsParts(m0, FileNow(fh)); }
      if FileKept(m0, FileNow(fh)) {
        HandleDone(fh, s);
      } else {
        HandleChanged(fh, s);
      }
    }

    lemma OutsideIsKept(m0: Instant, m: Instant, s: State, fh: nat)
      requires Sound(s) && fh in s.views && OutsideKept(m0, m)
      requires m0.h == s.views[fh].h && m0.chain == s.views[fh].chain && m0.nodes == s.nodes
      ensures SlotsKept(s, m.nodes, s.views[fh].h.head)
    {
      hide Sound;
      hide Footprint;
      OutsideIsOthers(s, fh, m.nodes);
    }

    /** The driver is sound and every file has the bytes it had in `s`; only the slots of file f may differ. */
    ghost predicate AllKept(s: State, f: nat)
      reads this, container, container.store, inodes, openFiles.Values
    {
      Valid() && Now().BytesOf(f) == s.BytesOf(f) && OthersKept(s, Now(), f)
    }

    /**
     Flush, then forget the handle; a handle that cannot be flushed stays in the table. `mid` and `left` are
     the driver and the file between the two.
     */
    method OpRelease(fh: nat) returns (r: Result<(), Errno>, ghost mid: State, ghost left: Instant)
      requires Valid()
      modifies this, container, container.store, openFiles.Values
      ensures container.Valid()
      ensures fh !in old(openFiles) ==> r == Ok(()) && Valid() && Now() == old(Now())
      ensures fh in old(openFiles) ==>
                && FlushLeaves(container, old(FileNow(fh)), left, r.Ok?)
                && OnlyHandle(old(Now()), mid, fh) && mid.views[fh] == FileView(left.h, left.chain)
                && mid.nodes == left.nodes && left.h.total == old(HandleAt(fh)).h.total
                && Released(mid, left, fh, r.Ok?)
      ensures fh in old(openFiles) && r.Ok? ==>
                var f := old(openFiles[fh].headSlot);
                && Sound(mid) && mid.BytesOf(f) == old(Now()).BytesOf(f) && FileKept(old(FileNow(fh)), left)
                && DiskBytes(left.nodes, f, left.chain) == old(Now()).BytesOf(f)
                && FlushedAs(old(HandleAt(fh)).h, old(HandleAt(fh)).chain, old(container.nodes), left.nodes)
                && AllKept(old(Now()), f) && openFiles == old(openFiles) - {fh} && left.lost == old(container.lost)
      ensures r.Err? ==> openFiles == old(openFiles)
      ensures fh in old(openFiles) && r.Err? ==>
                var f := old(openFiles[fh].headSlot);
                && SlotsKept(old(Now()), container.nodes, f) && left.h.dirty == old(HandleAt(fh)).h.dirty
                && ((AllKept(old(Now()), f) && FileKept(old(FileNow(fh)), left)) || ChainLost(old(FileNow(fh)), left))
      ensures fh in old(openFiles) && (Short(old(HandleAt(fh)).h.total) || BlocksFit(container)) ==>
                (r.Ok? <==> Clean(old(HandleAt(fh)).h)
                            || GoesThrough(container, old(HandleAt(fh)).h, old(HandleAt(fh)).chain,
                                           |old(container.store.free)|, left.h, left.nodes))
      ensures container.Wiped(old(container.nodes)) && nextFh == old(nextFh)
    {
      hide VnmContainer.Wiped;
      hide VnmContainer.Valid;
      hide Sound;
      hide FileOk;
      hide FileBytes;
      hide DiskBytes;
      hide DiskView;
      hide State.BytesOf;
      hide OthersKept;
      hide GoesThrough;
      hide FlushShows;
      hide FlushLeaves;
      hide FlushedAs;
      hide FileKept;
      hide ChainLost;
      hide SlotsKept;
      hide Appending;
      hide BlocksFit;
      hide OnlyHandle;
      r := OpFlush(fh);
      mid, left := Now(), FileNow(fh);
      if r.Err? { return; }
      if fh in openFiles {
        ViewIs(fh);
        Forget(fh);
        OthersTrans(old(Now()), mid, Now(), old(openFiles[fh].headSlot));
      }
      r := Ok(());
    }

    /** The handle is gone, or the flush before it has failed and nothing else has happened. */
    ghost predicate Released(mid: State, left: Instant, fh: nat, ok: bool)
      reads this, container, container.store, inodes, openFiles.Values
    {
      && fh in mid.views && Now() == (if ok then Closed(mid, fh) else mid)
      && left.free == container.store.free && left.lost == container.lost
    }

    /** Drop a clean handle from the table. */
    method Forget(fh: nat)
      requires Valid() && fh in openFiles && openFiles[fh].dirty == {} && !openFiles[fh].metaDirty
      modifies this`files, this`openFiles
      ensures Valid() && openFiles == old(openFiles) - {fh}
      ensures fh in old(Now()).views && Now() == Closed(old(Now()), fh)
      ensures Now().BytesOf(old(openFiles[fh].headSlot)) == old(Now()).BytesOf(old(openFiles[fh].headSlot))
      ensures OthersKept(old(Now()), Now(), old(openFiles[fh].headSlot))
    {
      hide VnmContainer.Valid;
      hide Sound;
      hide FileBytes;
      hide DiskView;
      hide OthersKept;
      hide State.BytesOf;
      hide VenomFuse.Views;
      hide VenomFuse.TableOk;
      ghost var s := Now();
      ghost var v := s.views[fh];
      ViewIs(fh);
      CloseStep(s, fh);
      ghost var d := FileView(DiskView(s.nodes, v.h.head, v.chain), v.chain);
      files := files[v.h.head := d];
      DropFh(fh);
      assert Now() == Closed(s, fh);
    }

    lemma ViewIs(fh: nat)
      requires fh in openFiles
      ensures fh in Views() && Views()[fh] == FileView(openFiles[fh].View(), openFiles[fh].chainSlots)
      ensures Views()[fh].h.head == openFiles[fh].headSlot
    {
    }

    method DropFh(fh: nat)
      requires TableOk() && fh in openFiles
      modifies this`openFiles
      ensures TableOk() && openFiles == old(openFiles) - {fh} && Views() == old(Views()) - {fh}
    {
      hide OpenFile.View;
      ghost var views := Views();
      openFiles := openFiles - {fh};
      assert Views() == views - {fh};
    }

    // ── Truncation ──────────────────────────────────────────────────────────

    /**
     `op_setattr_size` through an open handle. Shrinking takes a prefix; a larger size keeps the bytes so
     far, but gives a sound file only if its chunks already reach that far.
     */
    method OpTruncate(fh: nat, newSize: nat) returns (r: Result<(), Errno>)
      requires Valid()
      modifies this`files, openFiles.Values
      ensures fh !in openFiles ==> r == Err(ENOENT) && Valid() && Now() == old(Now())
      ensures fh in openFiles ==> r == Ok(())
      ensures fh in openFiles && newSize <= old(HandleAt(fh)).h.total ==>
                var f := openFiles[fh].headSlot;
                && Valid() && OthersKept(old(Now()), Now(), f)
                && OnlyHandle(old(Now()), Now(), fh)
                && HandleAt(fh).chain == old(HandleAt(fh)).chain
                && Now().BytesOf(f) == Slice(old(Now()).BytesOf(f), 0, newSize)
                && HandleAt(fh).h ==
                     if newSize < old(HandleAt(fh)).h.total then Shrunk(old(HandleAt(fh)).h, newSize)
                     else old(HandleAt(fh)).h
      ensures fh in openFiles && newSize > old(HandleAt(fh)).h.total ==>
                var f := openFiles[fh].headSlot;
                && HandleAt(fh).h == old(HandleAt(fh)).h.(total := newSize, metaDirty := true)
                && (Valid() <==> Covers(old(HandleAt(fh)).h, container.nodes, newSize))
                && (Valid() ==> Grown(old(Now()), Now(), f, newSize))
    {
      hide OnlyHandle;
      hide VnmContainer.Valid;
      hide Sound;
      hide AfterHandle;
      hide State.BytesOf;
      hide VenomFuse.TableOk;
      hide FileOk;
      hide Touched;
      hide FileBytes;
      hide Covers;
      hide Shrunk;
      if fh !in openFiles { return Err(ENOENT); }
      ghost var s := Now();
      Distinct(fh);
      HandleParts(s, fh);
      var of := openFiles[fh];
      of.SetSize(newSize, container.nodes);
      ReadTouches(s.views[fh].h, of.View(), of.chainSlots, container.nodes);
      if of.Valid(container.nodes) {
        HandleDone(fh, s);
      } else {
        NotValid(fh);
      }
      r := Ok(());
    }

    /** A handle that is not sound makes the driver's state unsound. */
    lemma NotValid(fh: nat)
      requires fh in openFiles && !openFiles[fh].Valid(container.nodes)
      ensures !Valid()
    {
      hide VnmContainer.Valid;
      hide VenomFuse.TableOk;
      hide FileOk;
      hide Sound;
      if Sound(Now()) {
        ViewIs(fh);
        HandleParts(Now(), fh);
      }
    }

    /**
     `op_setattr_size` without a handle: rewrite the head in place, for a larger size with only the size
     changed. A failure to do so leaves every other file's slots alone.
     */
    method TruncateOnDisk(ino: nat, newSize: nat) returns (r: Result<(), Errno>)
      requires Valid()
      requires var f := inodes.SlotOfIno(ino);
               f.Some? && f.value in files ==> !Now().IsOpen(f.value)
      modifies this`files, container, container.store
      ensures container.Valid() && container.lost == old(container.lost)
      ensures inodes.SlotOfIno(ino).None? ==> r == Err(ENOENT) && Valid() && Now() == old(Now())
      ensures var f := inodes.SlotOfIno(ino);
              f.Some? && f.value !in old(files) ==> r == Err(EIO) && Valid() && Now() == old(Now())
      ensures var f := inodes.SlotOfIno(ino);
              f.Some? && f.value in old(files) ==>
                && (r.Ok? <==> container.Fits(ResizedHead(old(container.nodes), f.value, newSize)))
                && (r.Err? ==> r.error == EIO && NotResized(old(Now()), f.value, newSize))
                && (r.Ok? && newSize == old(files)[f.value].h.total ==> Valid() && Now() == old(Now()))
                && (r.Ok? && newSize < old(files)[f.value].h.total ==>
                      && Now() == Truncated(old(Now()), f.value, newSize)
                      && (OverflowSlots(old(Now()), f.value) == {} ==> Valid()))
                && (r.Ok? && newSize > old(files)[f.value].h.total ==>
                      && Now() == Stretched(old(Now()), f.value, newSize)
                      && (Valid() <==> Covers(old(files)[f.value].h, old(container.nodes), newSize)))
      ensures container.Wiped(old(container.nodes))
    {
      hide VnmContainer.Wiped;
      hide VnmContainer.Valid;
      hide Sound;
      hide VenomFuse.TableOk;
      hide VenomFuse.Views;
      hide State.IsOpen;
      hide SlotsKept;
      hide VenomFuse.NotResized;
      hide OverflowSlots;
      hide Footprint;
      hide Covers;
      hide Truncated;
      hide Stretched;
      ghost var past := container.history;
      container.LatestIsNow();
      var slot := inodes.SlotOfIno(ino);
      if slot.None? {
        container.NothingFreed();
        return Err(ENOENT);
      }
      var head := slot.value;
      KnownNode(Now(), head);
      var node := container.ReadNode(head);
      if !node.value.File? {
        container.NothingFreed();
        return Err(EIO);
      }
      ClosedTotal(Now(), head);
      if newSize < node.value.totalSize {
        r := ShrinkOnDisk(head, newSize);
      } else {
        r := StretchOnDisk(head, newSize);
      }
      container.FreedIsWiped(old(container.nodes), past);
    }

    /** Shrink a closed file on disk. */
    method ShrinkOnDisk(f: nat, newSize: nat) returns (r: Result<(), Errno>)
      requires Valid() && f in files && !Now().IsOpen(f) && newSize < files[f].h.total
      modifies this`files, container, container.store
      ensures container.Valid() && container.lost == old(container.lost)
      ensures r.Ok? <==> container.Fits(ResizedHead(old(container.nodes), f, newSize))
      ensures r.Err? ==> r.error == EIO && NotResized(old(Now()), f, newSize)
      ensures r.Ok? ==>
                && Now() == Truncated(old(Now()), f, newSize)
                && (OverflowSlots(old(Now()), f) == {} ==> Valid())
      ensures old(container.history) <= container.history
    {
      hide VnmContainer.Valid;
      hide Sound;
      hide VenomFuse.TableOk;
      hide VenomFuse.Views;
      hide State.IsOpen;
      hide DiskView;
      hide Walk;
      hide SlotsKept;
      hide TruncatedNodes;
      hide TruncatedView;
      hide CutHead;
      hide OverflowSlots;
      hide OthersKept;
      hide Orphans;
      hide State.BytesOf;
      hide Footprint;
      ghost var s := Now();
      ClosedTotal(s, f);
      TruncatedAll(s, f, newSize);
      r := RewriteHead(f, newSize, files[f].chain);
      if r.Ok? { files := files[f := TruncatedView(s.nodes, f, s.files[f].chain, newSize)]; }
    }

    /** Record a size that is not smaller. */
    method StretchOnDisk(f: nat, newSize: nat) returns (r: Result<(), Errno>)
      requires Valid() && f in files && !Now().IsOpen(f) && newSize >= files[f].h.total
      modifies this`files, container, container.store
      ensures container.Valid() && container.lost == old(container.lost)
      ensures r.Ok? <==> container.Fits(ResizedHead(old(container.nodes), f, newSize))
      ensures r.Err? ==> r.error == EIO && NotResized(old(Now()), f, newSize)
      ensures r.Ok? && newSize == old(files)[f].h.total ==> Valid() && Now() == old(Now())
      ensures r.Ok? && newSize > old(files)[f].h.total ==>
                && Now() == Stretched(old(Now()), f, newSize)
                && (Valid() <==> Covers(old(files)[f].h, old(container.nodes), newSize))
      ensures old(container.history) <= container.history
    {
      hide VnmContainer.Valid;
      hide Sound;
      hide VenomFuse.TableOk;
      hide VenomFuse.Views;
      hide State.IsOpen;
      hide DiskView;
      hide SlotsKept;
      hide OthersKept;
      hide State.BytesOf;
      hide Footprint;
      hide Covers;
      ghost var s := Now();
      ClosedTotal(s, f);
      var node := container.ReadNode(f);
      var u := container.UpdateNode(f, node.value.(totalSize := newSize));
      r := if u.Ok? then Ok(()) else Err(EIO);
      if newSize > node.value.totalSize {
        StretchedAll(s, f, newSize);
        if r.Ok? {
          ghost var chain := s.files[f].chain;
          files := files[f := FileView(DiskView(StretchedNodes(s.nodes, f, newSize), f, chain), chain)];
        }
      } else {
        assert node.value.(totalSize := newSize) == node.value;
        assert container.nodes == s.nodes;
      }
    }

    /** The head could not be rewritten: what it was to give up is gone, and every other slot is as it was. */
    ghost predicate NotResized(s: State, f: nat, newSize: nat)
      reads this, container, container.store, inodes, openFiles.Values
    {
      if newSize < TotalOf(s.files, f) then
        && f in s.files && SlotsKept(s, container.nodes, f)
        && Now() == s.(nodes := s.nodes - Dropped(s.nodes, f, s.files[f].chain, newSize))
      else
        Valid() && Now() == s
    }

    /** Free the slots past the new size and the index chain, then rewrite the head. */
    method RewriteHead(f: nat, newSize: nat, ghost chain: seq<nat>) returns (r: Result<(), Errno>)
      requires container.Valid() && DirectOk(container.nodes, f, chain)
      modifies container, container.store
      ensures container.Valid() && container.lost == old(container.lost)
      ensures r.Ok? <==> container.Fits(CutHead(old(container.nodes), f, newSize))
      ensures r.Err? ==>
                r.error == EIO
                && container.nodes == old(container.nodes) - Dropped(old(container.nodes), f, chain, newSize)
      ensures r.Ok? ==> container.nodes == TruncatedNodes(old(container.nodes), f, chain, newSize)
      ensures old(container.history) <= container.history
    {
      hide DirectOk;
      hide SlotSet;
      hide VnmContainer.Valid;
      hide VnmContainer.Free;
      hide VnmContainer.Fits;
      hide Walk;
      hide Dropped;
      hide CutHead;
      hide Cut;
      ghost var nodes := container.nodes;
      CutStays(nodes, f, chain, newSize);
      CutHeadIs(nodes, f, newSize);
      var node := container.ReadNode(f);
      var fb := node.value;
      var nChunks := if newSize == 0 then 0 else (newSize + CHUNK_SIZE - 1) / CHUNK_SIZE;
      var cut := if nChunks == 0 then 0 else nChunks - 1;
      DropExcess(f, fb.dataSlots, fb.indexChain, cut, newSize, chain);
      var newCont := fb.dataSlots[..Min(cut, |fb.dataSlots|)];
      var data := if nChunks == 0 then [] else Truncate(fb.data, newSize);
      var u := container.UpdateNode(f, File(newSize, newCont, None, data));
      r := if u.Ok? then Ok(()) else Err(EIO);
    }

    /** Free the listed slots from position `cut` on and the index chain. */
    method DropExcess(f: nat, ids: seq<nat>, first: Option<nat>, cut: nat, ghost size: nat, ghost chain: seq<nat>)
      requires container.Valid() && DirectOk(container.nodes, f, chain) && f in container.nodes
      requires container.nodes[f].File? && container.nodes[f].dataSlots == ids && container.nodes[f].indexChain == first
      requires Min(cut, |ids|) == Cut(ids, size)
      modifies container, container.store
      ensures container.Valid() && container.lost == old(container.lost)
      ensures container.nodes == old(container.nodes) - Dropped(old(container.nodes), f, chain, size)
      ensures old(container.history) <= container.history
    {
      hide DirectOk;
      hide SlotSet;
      hide VnmContainer.Valid;
      hide VnmContainer.Free;
      hide Walk;
      hide Cut;
      ghost var nodes := container.nodes;
      CutStays(nodes, f, chain, size);
      if |ids| > cut {
        FreeSlots(ids[cut..]);
      } else {
        NoSlots(ids[|ids|..]);
        assert nodes == nodes - SlotSet(ids[|ids|..]);
      }
      FreeIndexChain(container, first, chain);
    }

    /** The file whose size is set: that of the given handle, whatever the inode, else that of the inode. */
    ghost function SizedFile(ino: nat, fhHint: Option<nat>): Option<nat>
      reads `openFiles, inodes
    {
      if fhHint.Some? && fhHint.value in openFiles then Some(openFiles[fhHint.value].headSlot)
      else inodes.SlotOfIno(ino)
    }

    /**
     `op_setattr_size`: through the given handle, or any handle of the inode, or on disk. Shrinking takes a
     prefix; a larger size keeps the bytes so far and gives a sound file only if the chunks reach that far.
     */
    method OpSetAttrSize(ino: nat, fhHint: Option<nat>, newSize: nat) returns (r: Result<(), Errno>)
      requires Valid()
      modifies this`files, container, container.store, openFiles.Values
      ensures container.Valid() && container.lost == old(container.lost)
      ensures fhHint.Some? && fhHint.value !in openFiles ==> r == Err(ENOENT) && Valid() && Now() == old(Now())
      ensures var f := SizedFile(ino, fhHint);
              fhHint.Some? ==> fhHint.value !in openFiles || (f.Some? && old(Now()).IsOpen(f.value))
      ensures var f := SizedFile(ino, fhHint);
              (fhHint.Some? ==> fhHint.value in openFiles) && f.Some? && old(Now()).IsOpen(f.value) ==> r == Ok(())
      ensures var f := SizedFile(ino, fhHint);
              fhHint.None? && (f.Some? ==> !old(Now()).IsOpen(f.value)) ==>
                if f.None? then r == Err(ENOENT) && Valid() && Now() == old(Now())
                else if f.value !in old(files) then r == Err(EIO) && Valid() && Now() == old(Now())
                else
                  && (r.Ok? <==> container.Fits(ResizedHead(old(container.nodes), f.value, newSize)))
                  && (r.Err? ==> r.error == EIO && NotResized(old(Now()), f.value, newSize))
      ensures r.Ok? ==> SizedFile(ino, fhHint).Some? && SizedFile(ino, fhHint).value in old(files)
      ensures var f := SlotOr0(SizedFile(ino, fhHint));
              r.Ok? && newSize <= TotalOf(old(files), f)
              && (old(Now()).IsOpen(f) || OverflowSlots(old(Now()), f) == {}) ==>
                && Valid()
                && Now().BytesOf(f) == Slice(old(Now()).BytesOf(f), 0, newSize) && OthersKept(old(Now()), Now(), f)
      ensures var f := SlotOr0(SizedFile(ino, fhHint));
              r.Ok? && newSize > TotalOf(old(files), f) ==>
                && (Valid() <==> Reaches(old(files), f, old(container.nodes), newSize))
                && (Valid() ==> Grown(old(Now()), Now(), f, newSize))
      ensures container.Wiped(old(container.nodes))
    {
      hide VnmContainer.Wiped;
      hide VnmContainer.Valid;
      hide Sound;
      hide VenomFuse.TableOk;
      hide VenomFuse.Views;
      hide State.IsOpen;
      hide OverflowSlots;
      hide OthersKept;
      hide State.BytesOf;
      hide Truncated;
      hide Stretched;
      hide Slice;
      hide Grown;
      hide Shrunk;
      hide Covers;
      ghost var s := Now();
      ghost var f := SlotOr0(SizedFile(ino, fhHint));
      InoOfHandles(ino);
      TotalIsLength(s, f);
      var fh := fhHint;
      if fh.None? {
        if k :| k in openFiles && openFiles[k].ino == ino {
          fh := Some(k);
        }
      }
      if fh.Some? {
        if fh.value in openFiles {
          HandleTotal(fh.value);
          HandleIsFile(fh.value);
          InoOfHandles(openFiles[fh.value].ino);
          TotalIsLength(s, openFiles[fh.value].headSlot);
        }
        r := OpTruncate(fh.value, newSize);
        container.NothingFreed();
        return;
      }
      r := TruncateOnDisk(ino, newSize);
      if inodes.SlotOfIno(ino).Some? && f in s.files {
        OthersRefl(s, f);
        WholeSlice(s.BytesOf(f));
        if newSize < s.files[f].h.total { TruncatedAll(s, f, newSize); }
        if newSize > s.files[f].h.total { StretchedAll(s, f, newSize); }
      }
    }

    lemma HandleIsFile(fh: nat)
      requires Sound(Now()) && fh in openFiles
      ensures openFiles[fh].headSlot in files && files[openFiles[fh].headSlot].h == HandleAt(fh).h
    {
      hide Sound;
      ViewIs(fh);
      HandleParts(Now(), fh);
    }

    lemma HandleTotal(fh: nat)
      requires Sound(Now()) && fh in openFiles
      ensures openFiles[fh].headSlot in files && files[openFiles[fh].headSlot].h.total == openFiles[fh].totalSize
    {
      hide Sound;
      ViewIs(fh);
      HandleParts(Now(), fh);
    }

    /** An inode's handles are those of its file. */
    lemma InoOfHandles(ino: nat)
      requires inodes.Valid() && TableOk()
      ensures var f := inodes.SlotOfIno(ino);
              && (forall k :: k in openFiles && openFiles[k].ino == ino ==>
                    f == Some(openFiles[k].headSlot) && Now().IsOpen(openFiles[k].headSlot))
              && (f.Some? && (forall k :: k in openFiles ==> openFiles[k].ino != ino) ==> !Now().IsOpen(f.value))
    {
      var f := inodes.SlotOfIno(ino);
      if f.Some? && forall k :: k in openFiles ==> openFiles[k].ino != ino {
        forall k | k in Views() ensures Views()[k].h.head != f.value {
          assert inodes.slotToIno[openFiles[k].headSlot] == openFiles[k].ino;
        }
      }
    }

    /**
     The new handle is what the disk records of the file. A first handle shows the file; a second one shows
     what was last flushed, and from then on two handles stand for one file, which the rest does not expect.
     */
    method OpOpen(ino: nat) returns (r: Result<nat, Errno>)
      requires Valid()
      requires var f := inodes.SlotOfIno(ino);
               f.Some? && f.value in files && Now().IsOpen(f.value) ==> ChainEnds(container.nodes, f.value)
      modifies this
      ensures unchanged(inodes)
      ensures if r.Ok? then r.value == old(nextFh) && nextFh == r.value + 1 else nextFh == old(nextFh)
      ensures inodes.SlotOfIno(ino).None? ==> r == Err(ENOENT)
      ensures inodes.SlotOfIno(ino).Some? && inodes.SlotOfIno(ino).value !in old(files) ==> r == Err(EISDIR)
      ensures r.Err? ==> Valid() && Now() == old(Now()) && openFiles == old(openFiles)
      ensures r.Ok? ==> r.value in openFiles && fresh(openFiles[r.value])
                        && NewInTable(r.value, SlotOr0(inodes.SlotOfIno(ino)), old(openFiles))
      ensures inodes.SlotOfIno(ino).Some? && inodes.SlotOfIno(ino).value in old(files)
              && !old(Now()).IsOpen(inodes.SlotOfIno(ino).value) ==>
                var f := inodes.SlotOfIno(ino).value;
                && Valid() && r.Ok? && Now().BytesOf(f) == old(Now()).BytesOf(f) && OthersKept(old(Now()), Now(), f)
                && Now() == WithHandle(old(Now()), r.value, f)
                && (HandleAt(r.value).h.chain == None ==>
                      Appending(HandleAt(r.value).h, container.nodes)
                      && DiskBytes(container.nodes, f, []) == Now().BytesOf(f))
      ensures inodes.SlotOfIno(ino).Some? && inodes.SlotOfIno(ino).value in old(files)
              && old(Now()).IsOpen(inodes.SlotOfIno(ino).value) ==>
                var f := inodes.SlotOfIno(ino).value;
                && OpenedAgain(container.nodes, f, r, if r.Ok? then HandleAt(r.value) else NewView(f))
                && (r.Ok? ==> TableOk() && !Valid())
    {
      hide VenomFuse.Views;
      hide VnmContainer.Valid;
      hide Sound;
      hide State.BytesOf;
      hide OthersKept;
      hide VenomFuse.TableOk;
      hide OpenedView;
      hide Appending;
      hide Footprint;
      hide Walk;
      hide IsChain;
      hide DiskOk;
      hide FileOk;
      hide FileBytes;
      hide DiskView;
      hide State.IsOpen;
      hide AllIndexes;
      var slot := inodes.SlotOfIno(ino);
      if slot.None? { return Err(ENOENT); }
      var head := slot.value;
      ghost var s := Now();
      KnownNode(s, head);
      ghost var chain := [];
      if head in files { chain := RecordedChain(s, head); }
      var m := BuildSlotMap(container, head, chain);
      if m.Err? { return Err(m.error); }
      var (totalSize, indexChain, slotMap) := m.value;
      var node := container.ReadNode(head);
      var chunk0 := node.value.data;
      var cache: map<nat, seq<byte>> := map[];
      if chunk0 != [] { cache := cache[0 := chunk0]; }
      var of := new OpenFile(ino, head, totalSize, indexChain, slotMap, cache, chain);
      OpenedViewIs(container.nodes, head, chain, of.View());
      var fh := AddHandle(of, s);
      r := Ok(fh);
    }

    /** The chain that the disk records: the file's own if it is closed. */
    lemma RecordedChain(s: State, f: nat) returns (chain: seq<nat>)
      requires Sound(s) && f in s.files && (s.IsOpen(f) ==> ChainEnds(s.nodes, f))
      ensures f in s.nodes && s.nodes[f].File? && Walk(s.nodes, s.nodes[f].indexChain, chain)
      ensures !s.IsOpen(f) ==> chain == s.files[f].chain && AllIndexes(s.nodes, chain)
    {
      hide Sound;
      hide State.IsOpen;
      HeadIsFile(s, f);
      if s.IsOpen(f) {
        chain :| Walk(s.nodes, s.nodes[f].indexChain, chain);
      } else {
        chain := s.files[f].chain;
        ClosedParts(s, f);
      }
    }

    /** Handle fh of file f is the only new entry of the table. */
    ghost predicate NewInTable(fh: nat, f: nat, before: map<nat, OpenFile>)
      reads `openFiles, openFiles.Values
    {
      && fh !in before && fh in openFiles && openFiles == before[fh := openFiles[fh]]
      && openFiles[fh].headSlot == f
    }

    /** Put a new handle into the table under the next number; a first handle is then what its file looks like. */
    method AddHandle(of: OpenFile, ghost s: State) returns (fh: nat)
      requires Valid() && s == Now() && of !in openFiles.Values && inodes.SlotOfIno(of.ino) == Some(of.headSlot)
      requires of.headSlot in files && of.View() == OpenedView(container.nodes, of.headSlot, of.chainSlots)
      requires !s.IsOpen(of.headSlot) ==> of.chainSlots == files[of.headSlot].chain
      modifies this
      ensures NewInTable(fh, of.headSlot, old(openFiles)) && openFiles[fh] == of && TableOk()
      ensures fh == old(nextFh) && nextFh == fh + 1
      ensures s.IsOpen(of.headSlot) ==> !Valid()
      ensures !s.IsOpen(of.headSlot) ==>
                && Valid() && Now().BytesOf(of.headSlot) == s.BytesOf(of.headSlot) && OthersKept(s, Now(), of.headSlot)
                && Now() == WithHandle(s, fh, of.headSlot)
                && (of.View().chain == None ==>
                      Appending(of.View(), container.nodes)
                      && DiskBytes(container.nodes, of.headSlot, []) == Now().BytesOf(of.headSlot))
    {
      hide InodeMap.Valid;
      hide IsChain;
      hide AllIndexes;
      hide VnmContainer.Valid;
      hide Sound;
      hide State.BytesOf;
      hide OthersKept;
      hide VenomFuse.Views;
      hide VenomFuse.TableOk;
      hide OpenedView;
      hide Appending;
      hide Footprint;
      hide DiskOk;
      hide FileOk;
      hide FileBytes;
      hide DiskView;
      hide State.IsOpen;
      NextIsFree();
      ghost var f, v := of.headSlot, FileView(of.View(), of.chainSlots);
      ghost var first := !s.IsOpen(f);
      if first {
        ClosedParts(s, f);
        OpenedOk(container.nodes, f, of.chainSlots);
        OpenStep(s, nextFh, f, v);
      }
      fh := AllocFh(of);
      if first {
        files := files[f := v];
      } else {
        TwoHandles(s, Now(), fh, f);
      }
    }

    /** Put the handle of a file just created into the table. */
    method AddNewFile(of: OpenFile) returns (fh: nat)
      requires container.Valid() && inodes.Valid() && TableOk() && of !in openFiles.Values
      requires inodes.SlotOfIno(of.ino) == Some(of.headSlot)
      requires var v := FileView(of.View(), of.chainSlots);
               Sound(Now().(files := files[of.headSlot := v], views := Views()[nextFh := v]))
      modifies this
      ensures Valid() && fh == old(nextFh) && nextFh == fh + 1 && openFiles == old(openFiles)[fh := of]
      ensures parent == old(parent)
      ensures var v := FileView(of.View(), of.chainSlots);
              Now() == old(Now()).(files := old(files)[of.headSlot := v], views := old(Views())[fh := v])
    {
      hide VnmContainer.Valid;
      hide Sound;
      hide OpenFile.View;
      hide VenomFuse.Views;
      hide VenomFuse.TableOk;
      files := files[of.headSlot := FileView(of.View(), of.chainSlots)];
      fh := AllocFh(of);
    }

    method AllocFh(of: OpenFile) returns (fh: nat)
      requires TableOk() && of !in openFiles.Values && inodes.SlotOfIno(of.ino) == Some(of.headSlot)
      modifies this`openFiles, this`nextFh
      ensures TableOk() && fh == old(nextFh) && nextFh == fh + 1 && openFiles == old(openFiles)[fh := of]
      ensures Views() == old(Views())[fh := FileView(of.View(), of.chainSlots)]
    {
      hide OpenFile.View;
      ghost var views := Views();
      fh := nextFh;
      openFiles := openFiles[nextFh := of];
      nextFh := nextFh + 1;
      assert Views() == views[fh := FileView(of.View(), of.chainSlots)];
    }

    /** Only file heads have handles. */
    lemma NotOpen(x: nat)
      requires Sound(Now()) && x in container.nodes && !container.nodes[x].File?
      ensures forall fh :: fh in openFiles ==> openFiles[fh].headSlot != x
    {
      hide Sound;
      HeadsAreFiles(Now());
      forall fh | fh in openFiles ensures openFiles[fh].headSlot != x {
        assert Views()[fh].h.head == openFiles[fh].headSlot;
      }
    }

    // ── Directories ─────────────────────────────────────────────────────────

    method ReadDirBlock(slot: nat) returns (r: Result<seq<DirEntry>, Errno>)
      requires container.Valid() && slot in container.nodes
      ensures r == if container.nodes[slot].Directory? then Ok(container.nodes[slot].entries) else Err(ENOTDIR)
    {
      hide VnmContainer.Valid;
      var n := container.ReadNode(slot);
      r := if n.value.Directory? then Ok(n.value.entries) else Err(ENOTDIR);
    }

    method DirAddEntry(parentSlot: nat, e: DirEntry) returns (r: Result<(), Errno>)
      requires container.Valid() && parentSlot in container.nodes
      modifies container, container.store
      ensures container.Valid() && container.lost == old(container.lost)
      ensures container.Free() == old(container.Free()) && container.store.free == old(container.store.free)
      ensures var no := AddRefusal(old(container.nodes), Some(parentSlot), e.name);
              r == if no.Some? then Err(no.value)
                   else if container.Fits(WithEntry(old(container.nodes), parentSlot, e)) then Ok(()) else Err(EIO)
      ensures container.nodes ==
                if r.Ok? then old(container.nodes)[parentSlot := WithEntry(old(container.nodes), parentSlot, e)]
                else old(container.nodes)
    {
      hide VnmContainer.Valid;
      var dir := ReadDirBlock(parentSlot);
      if dir.Err? { return Err(dir.error); }
      if FindName(dir.value, e.name).Some? { return Err(EEXIST); }
      var u := container.UpdateNode(parentSlot, Directory(dir.value + [e]));
      r := if u.Ok? then Ok(()) else Err(EIO);
    }

    /** The slot listed under the name. */
    method FindEntry(parentSlot: nat, name: string) returns (r: Result<nat, Errno>)
      requires container.Valid() && parentSlot in container.nodes
      ensures r == ListedAt(container.nodes, Some(parentSlot), name)
    {
      hide VnmContainer.Valid;
      hide HasName;
      var dir := ReadDirBlock(parentSlot);
      if dir.Err? { return Err(dir.error); }
      var pos := FindName(dir.value, name);
      r := if pos.Some? then Ok(dir.value[pos.value].slot) else Err(ENOENT);
    }

    /** Unlist the name; the result is the slot that was listed under it. */
    method DirRemoveEntry(parentSlot: nat, name: string) returns (r: Result<nat, Errno>)
      requires container.Valid() && parentSlot in container.nodes
      modifies container, container.store
      ensures container.Valid() && container.lost == old(container.lost)
      ensures container.Free() == old(container.Free()) && container.store.free == old(container.store.free)
      ensures old(container.history) <= container.history
      ensures var x := ListedAt(old(container.nodes), Some(parentSlot), name);
              r == if x.Err? || container.Fits(Unlisted(old(container.nodes), parentSlot, name)) then x else Err(EIO)
      ensures container.nodes ==
                if r.Ok? then old(container.nodes)[parentSlot := Unlisted(old(container.nodes), parentSlot, name)]
                else old(container.nodes)
    {
      hide VnmContainer.Valid;
      hide HasName;
      var dir := ReadDirBlock(parentSlot);
      if dir.Err? { return Err(dir.error); }
      var pos := FindName(dir.value, name);
      if pos.None? { return Err(ENOENT); }
      var removed := dir.value[pos.value].slot;
      var u := container.UpdateNode(parentSlot, Directory(dir.value[..pos.value] + dir.value[pos.value + 1..]));
      r := if u.Ok? then Ok(removed) else Err(EIO);
    }

    /** Give the slot an inode number if it has none. */
    method Learn(slot: nat) returns (ino: nat)
      requires inodes.Valid() && TableOk()
      modifies inodes
      ensures inodes.Valid() && TableOk()
      ensures inodes.slotToIno.Keys == old(inodes.slotToIno).Keys + {slot}
      ensures inodes.SlotOfIno(ino) == Some(slot) && NumbersKept(old(inodes.Given()), inodes.Given(), {})
      ensures ino == if slot in old(inodes.slotToIno) then old(inodes.slotToIno)[slot] else old(inodes.nextIno)
    {
      ino := inodes.GetOrAlloc(slot);
    }

    /** Forget the inode number of a slot that is no open file's head. */
    method Unlearn(slot: nat)
      requires inodes.Valid() && TableOk()
      requires forall fh :: fh in openFiles ==> openFiles[fh].headSlot != slot
      modifies inodes
      ensures inodes.Valid() && TableOk()
      ensures inodes.slotToIno.Keys == old(inodes.slotToIno).Keys - {slot}
      ensures NumbersKept(old(inodes.Given()), inodes.Given(), {slot})
    {
      inodes.RemoveSlot(slot);
    }

    /** Write a new node and list it; when it cannot be listed its slot goes back to the free list. */
    method NewListed(parentSlot: nat, node: Node, name: string, kind: NodeKind) returns (r: Result<nat, Errno>)
      requires container.Valid() && parentSlot in container.nodes
      modifies container, container.store
      ensures container.Valid()
      ensures r.Err? ==> container.nodes == old(container.nodes)
      ensures r.Err? && container.lost == old(container.lost) ==> container.store.free == old(container.store.free)
      ensures container.lost == old(container.lost)
              <==> old(container.store.free) == [] || container.Fits(node)
      ensures r == ListingResult(container, old(container.nodes), old(container.store.free), Some(parentSlot), node,
                                 name, kind)
      ensures r.Ok? ==>
                && r.value !in old(container.nodes) && r.value in old(container.Free())
                && (forall x :: x in old(container.Free()) ==> r.value <= x)
                && container.nodes ==
                  old(container.nodes)[r.value := node]
                    [parentSlot := WithEntry(old(container.nodes), parentSlot, DirEntry(name, r.value, kind))]
    {
      hide VnmContainer.Valid;
      hide HasName;
      ghost var nodes := container.nodes;
      var slot := container.WriteNode(node);
      if slot.Err? { return Err(EIO); }
      var a := DirAddEntry(parentSlot, DirEntry(name, slot.value, kind));
      if a.Err? {
        container.FreeNode(slot.value);
        assert nodes[slot.value := node] - {slot.value} == nodes;
        return Err(a.error);
      }
      r := Ok(slot.value);
    }

    /** A failed mkdir leaves the disk and the free list exactly as they were. */
    method OpMkdir(parentIno: nat, name: string) returns (r: Result<(nat, Node), Errno>)
      requires Valid()
      modifies this`parent, container, container.store, inodes
      ensures Valid()
      ensures var x := ListingResult(container, old(container.nodes), old(container.store.free),
                                     old(inodes.SlotOfIno(parentIno)), Directory([]), name, DirectoryKind);
              && (x.Err? ==> r == Err(x.error) && Now() == old(Now()))
              && (x.Ok? ==>
                    && r.Ok? && inodes.SlotOfIno(r.value.0) == Some(x.value) && r.value.1 == Directory([])
                    && x.value !in old(container.nodes)
                    && Now() == MadeDir(old(Now()), SlotOr0(old(inodes.SlotOfIno(parentIno))), name, x.value))
      ensures NumbersKept(old(inodes.Given()), inodes.Given(), {})
      ensures container.lost == old(container.lost)
              <==> (|| old(inodes.SlotOfIno(parentIno)).None? || old(container.store.free) == []
                    || container.Fits(Directory([])))
      ensures r.Err? && container.lost == old(container.lost) ==> container.store.free == old(container.store.free)
    {
      hide NumbersKept;
      hide InodeMap.Given;
      hide InodeMap.Valid;
      hide VnmContainer.Free;
      hide VnmContainer.Fits;
      hide FindName;
      hide VenomFuse.Views;
      hide Dirs;
      hide MadeDir;
      hide VnmContainer.Valid;
      hide Sound;
      hide HasName;
      hide VenomFuse.TableOk;
      hide ListingResult;
      var pSlot := inodes.SlotOfIno(parentIno);
      ListingFacts(container, container.nodes, container.store.free, pSlot, Directory([]), name, DirectoryKind);
      if pSlot.None? {
        NumbersStay(inodes.Given());
        return Err(ENOENT);
      }
      ghost var s := Now();
      inodes.KnowsSlot(parentIno);
      KnownNode(s, pSlot.value);
      var newDir := Directory([]);
      var slot := NewListed(pSlot.value, newDir, name, DirectoryKind);
      if slot.Err? {
        NumbersStay(inodes.Given());
        return Err(slot.error);
      }
      var ino := Learn(slot.value);
      MadeDirSound(s, pSlot.value, name, slot.value, container.nodes);
      parent := parent[slot.value := pSlot.value];
      r := Ok((ino, newDir));
    }

    method OpRmdir(parentIno: nat, name: string) returns (r: Result<(), Errno>)
      requires Valid()
      modifies this`parent, container, container.store, inodes
      ensures Valid() && container.lost == old(container.lost)
      ensures r.Err? ==> Now() == old(Now()) && container.store.free == old(container.store.free)
      ensures var d := old(inodes.SlotOfIno(parentIno)); var no := RmdirRefusal(old(container.nodes), d, name);
              && (r.Ok? <==> no.None? && container.Fits(Unlisted(old(container.nodes), d.value, name)))
              && (r.Err? ==> r.error == if no.Some? then no.value else EIO)
      ensures r.Ok? ==>
                var d := SlotOr0(old(inodes.SlotOfIno(parentIno)));
                && Now() == RemovedDir(old(Now()), d, name)
                && container.store.free ==
                  FreeList.Insert(old(container.store.free), SlotNamed(old(container.nodes), d, name))
      ensures r.Err? ==> NumbersKept(old(inodes.Given()), inodes.Given(), {})
      ensures r.Ok? ==>
                var d := SlotOr0(old(inodes.SlotOfIno(parentIno)));
                NumbersKept(old(inodes.Given()), inodes.Given(), {SlotNamed(old(container.nodes), d, name)})
      ensures container.Wiped(old(container.nodes))
    {
      hide NumbersKept;
      hide InodeMap.Given;
      hide VnmContainer.Wiped;
      hide VnmContainer.Valid;
      hide Sound;
      hide VenomFuse.TableOk;
      hide VenomFuse.Views;
      hide RemovedDir;
      hide Unlisted;
      hide SlotNamed;
      hide FindName;
      hide HasName;
      ghost var past := container.history;
      container.LatestIsNow();
      var pSlot := inodes.SlotOfIno(parentIno);
      if pSlot.None? {
        NumbersStay(inodes.Given());
        container.NothingFreed();
        return Err(ENOENT);
      }
      KnownNode(Now(), pSlot.value);
      var entry := FindEntry(pSlot.value, name);
      if entry.Err? {
        NumbersStay(inodes.Given());
        container.NothingFreed();
        return Err(entry.error);
      }
      ListedNode(Now(), pSlot, name);
      var t := ReadDirBlock(entry.value);
      if t.Err? {
        NumbersStay(inodes.Given());
        container.NothingFreed();
        return Err(t.error);
      }
      if t.value != [] {
        NumbersStay(inodes.Given());
        container.NothingFreed();
        return Err(ENOTEMPTY);
      }
      r := DropDir(pSlot.value, name, entry.value);
      container.FreedIsWiped(old(container.nodes), past);
    }

    /** Unlist and free an empty directory. */
    method DropDir(d: nat, name: string, ghost x: nat) returns (r: Result<(), Errno>)
      requires Valid() && d in container.nodes && ListedAt(container.nodes, Some(d), name) == Ok(x)
      requires x in container.nodes && container.nodes[x] == Directory([])
      modifies this`parent, container, container.store, inodes
      ensures Valid() && container.lost == old(container.lost)
      ensures r.Ok? <==> container.Fits(Unlisted(old(container.nodes), d, name))
      ensures r.Err? ==> r == Err(EIO) && Now() == old(Now()) && container.store.free == old(container.store.free)
      ensures r.Ok? ==>
                Now() == RemovedDir(old(Now()), d, name)
                && container.store.free == FreeList.Insert(old(container.store.free), x)
      ensures r.Err? ==> NumbersKept(old(inodes.Given()), inodes.Given(), {})
      ensures r.Ok? ==> NumbersKept(old(inodes.Given()), inodes.Given(), {x})
      ensures old(container.history) <= container.history
    {
      hide NumbersKept;
      hide VnmContainer.Valid;
      hide Sound;
      hide HasName;
      hide VenomFuse.TableOk;
      hide VenomFuse.Views;
      hide RemovedDir;
      hide Unlisted;
      hide ListedAt;
      ghost var s := Now();
      NotOpen(x);
      RemovedDirSound(s, d, name, x);
      var removed := DirRemoveEntry(d, name);
      if removed.Err? {
        NumbersStay(inodes.Given());
        return Err(removed.error);
      }
      DiscardDir(removed.value);
      r := Ok(());
    }

    /** Free an unlisted directory and forget it. */
    method DiscardDir(x: nat)
      requires container.Valid() && x in container.nodes
      requires inodes.Valid() && TableOk() && forall fh :: fh in openFiles ==> openFiles[fh].headSlot != x
      modifies this`parent, container, container.store, inodes
      ensures container.Valid() && container.lost == old(container.lost) && inodes.Valid() && TableOk()
      ensures container.store.free == FreeList.Insert(old(container.store.free), x)
      ensures NumbersKept(old(inodes.Given()), inodes.Given(), {x}) && old(container.history) <= container.history
      ensures Now() ==
                old(Now()).(nodes := old(Now()).nodes - {x}, parent := old(parent) - {x},
                            known := old(Now()).known - {x})
    {
      hide VnmContainer.Valid;
      hide VenomFuse.TableOk;
      hide VenomFuse.Views;
      container.FreeNode(x);
      Unlearn(x);
      parent := parent - {x};
    }

    /** A directory entry's node and its inode number: the one that the slot has, if it has one. */
    method OpLookup(parentIno: nat, name: string) returns (r: Result<(nat, Node), Errno>)
      requires Valid()
      modifies inodes
      ensures Valid()
      ensures var x := ListedAt(container.nodes, old(inodes.SlotOfIno(parentIno)), name);
              && (x.Err? ==> r == Err(x.error) && Now() == old(Now()))
              && (x.Ok? ==>
                    && r.Ok? && inodes.SlotOfIno(r.value.0) == x.ToOption() && x.value in container.nodes
                    && r.value.1 == container.nodes[x.value]
                    && Now() == old(Now()).(known := old(Now()).known + {x.value})
                    && r.value.0 == if x.value in old(inodes.slotToIno) then old(inodes.slotToIno)[x.value]
                                    else old(inodes.nextIno))
      ensures NumbersKept(old(inodes.Given()), inodes.Given(), {})
    {
      hide NumbersKept;
      hide InodeMap.Given;
      hide InodeMap.Valid;
      hide VnmContainer.Valid;
      hide Sound;
      hide VenomFuse.TableOk;
      hide VenomFuse.Views;
      hide SlotNamed;
      hide FindName;
      hide HasName;
      var pSlot := inodes.SlotOfIno(parentIno);
      if pSlot.None? {
        NumbersStay(inodes.Given());
        return Err(ENOENT);
      }
      inodes.KnowsSlot(parentIno);
      KnownNode(Now(), pSlot.value);
      var entry := FindEntry(pSlot.value, name);
      if entry.Err? {
        NumbersStay(inodes.Given());
        return Err(entry.error);
      }
      ListedNode(Now(), pSlot, name);
      var node := container.ReadNode(entry.value);
      KnowStep(Now(), entry.value);
      var ino := Learn(entry.value);
      r := Ok((ino, node.value));
    }

    /** A new empty file with an open handle; a failed create leaves the disk and the free list as they were. */
    method OpCreate(parentIno: nat, name: string) returns (r: Result<(nat, nat), Errno>)
      requires Valid()
      modifies this, container, container.store, inodes
      ensures Valid()
      ensures var x := ListingResult(container, old(container.nodes), old(container.store.free),
                                     old(inodes.SlotOfIno(parentIno)), NewFile(), name, FileKind);
              && (x.Err? ==> r == Err(x.error) && Now() == old(Now()) && openFiles == old(openFiles))
              && (x.Ok? ==>
                    && r.Ok? && inodes.SlotOfIno(r.value.0) == Some(x.value)
                    && x.value !in old(container.nodes) && r.value.1 !in old(openFiles)
                    && Now() == Created(old(Now()), SlotOr0(old(inodes.SlotOfIno(parentIno))), name, x.value, r.value.1)
                    && Now().BytesOf(x.value) == [] && OthersKept(old(Now()), Now(), x.value)
                    && Appending(HandleAt(r.value.1).h, container.nodes)
                    && DiskBytes(container.nodes, x.value, []) == [])
      ensures if r.Ok? then r.value.1 == old(nextFh) && nextFh == r.value.1 + 1 else nextFh == old(nextFh)
      ensures NumbersKept(old(inodes.Given()), inodes.Given(), {})
      ensures container.lost == old(container.lost)
              <==> (|| old(inodes.SlotOfIno(parentIno)).None? || old(container.store.free) == []
                    || container.Fits(NewFile()))
      ensures r.Err? && container.lost == old(container.lost) ==> container.store.free == old(container.store.free)
    {
      hide NumbersKept;
      hide InodeMap.Given;
      hide InodeMap.Valid;
      hide VnmContainer.Free;
      hide VnmContainer.Valid;
      hide Sound;
      hide HasName;
      hide VenomFuse.TableOk;
      hide VenomFuse.Views;
      hide Created;
      hide NewView;
      hide OthersKept;
      hide Appending;
      hide DiskBytes;
      hide State.BytesOf;
      hide ListingResult;
      hide VnmContainer.Fits;
      var pSlot := inodes.SlotOfIno(parentIno);
      ListingFacts(container, container.nodes, container.store.free, pSlot, NewFile(), name, FileKind);
      if pSlot.None? {
        NumbersStay(inodes.Given());
        return Err(ENOENT);
      }
      ghost var s := Now();
      inodes.KnowsSlot(parentIno);
      KnownNode(s, pSlot.value);
      var head := NewListed(pSlot.value, NewFile(), name, FileKind);
      if head.Err? {
        NumbersStay(inodes.Given());
        return Err(head.error);
      }
      var ino := Learn(head.value);
      CreatedAll(s, pSlot.value, name, head.value, nextFh, container.nodes);
      parent := parent[head.value := pSlot.value];
      var fh := NewHandle(ino, head.value);
      r := Ok((ino, fh));
    }

    /** The handle of a file just created. */
    method NewHandle(ino: nat, head: nat) returns (fh: nat)
      requires container.Valid() && inodes.Valid() && TableOk() && inodes.SlotOfIno(ino) == Some(head)
      requires Sound(Now().(files := files[head := NewView(head)], views := Views()[nextFh := NewView(head)]))
      modifies this
      ensures Valid() && fh == old(nextFh) && nextFh == fh + 1 && fh !in old(openFiles) && parent == old(parent)
      ensures HandleAt(fh) == NewView(head)
      ensures Now() ==
                old(Now()).(files := old(files)[head := NewView(head)], views := old(Views())[fh := NewView(head)])
    {
      hide VnmContainer.Valid;
      hide Sound;
      NextIsFree();
      var of := new OpenFile(ino, head, 0, None, [None], map[], []);
      assert FileView(of.View(), of.chainSlots) == NewView(head);
      fh := AddNewFile(of);
    }

    /** Free each of these slots. */
    method FreeSlots(ids: seq<nat>)
      requires container.Valid() && SlotSet(ids) <= container.nodes.Keys
      requires forall i, j :: 0 <= i < j < |ids| ==> ids[i] != ids[j]
      modifies container, container.store
      ensures container.Valid() && container.lost == old(container.lost)
      ensures container.nodes == old(container.nodes) - SlotSet(ids)
      ensures container.Free() == old(container.Free()) + SlotSet(ids)
      ensures old(container.history) <= container.history
    {
      hide VnmContainer.Valid;
      for i := 0 to |ids|
        invariant container.Valid() && container.lost == old(container.lost)
        invariant old(container.history) <= container.history
        invariant container.nodes == old(container.nodes) - SlotSet(ids[..i])
        invariant container.Free() == old(container.Free()) + SlotSet(ids[..i])
      {
        assert ids[i] in SlotSet(ids) && ids[..i + 1] == ids[..i] + [ids[i]];
        SlotSetAppend(ids[..i], ids[i]);
        container.FreeNode(ids[i]);
      }
      assert ids[..|ids|] == ids;
    }

    /** Free a head, the data slots it lists and its index chain. */
    method FreeFile(x: nat, ghost chain: seq<nat>)
      requires container.Valid() && DirectOk(container.nodes, x, chain)
      modifies container, container.store
      ensures container.Valid() && container.lost == old(container.lost)
      ensures container.nodes == old(container.nodes) - Listing(old(container.nodes), x, chain)
      ensures container.Free() == old(container.Free()) + Listing(old(container.nodes), x, chain)
      ensures old(container.history) <= container.history
    {
      hide VnmContainer.Valid;
      hide Walk;
      ghost var nodes := container.nodes;
      var fb := container.ReadNode(x);
      FreeSlots(fb.value.dataSlots);
      ChainStays(nodes, x, chain);
      FreeIndexChain(container, fb.value.indexChain, chain);
      container.FreeNode(x);
    }

    /**
     A file whose head lists only its own slots, whatever is unflushed, or a directory. Of a file every
     slot is freed that the head or its index chain lists; any other slot of it stays in use and belongs to
     nobody. A directory goes with the listing of what was in it.
     */
    method OpUnlink(parentIno: nat, name: string) returns (r: Result<(), Errno>)
      requires Valid()
      requires var x := ListedAt(container.nodes, inodes.SlotOfIno(parentIno), name);
               x.Ok? && x.value in files ==> ListsOwn(Now(), x.value)
      modifies this, container, container.store, inodes
      ensures container.Valid() && container.lost == old(container.lost)
      ensures r.Err? ==> Valid() && Now() == old(Now()) && openFiles == old(openFiles)
      ensures var d := old(inodes.SlotOfIno(parentIno)); var x := ListedAt(old(container.nodes), d, name);
              && (r.Ok? <==> x.Ok? && container.Fits(Unlisted(old(container.nodes), d.value, name)))
              && (r.Err? ==> r.error == if x.Err? then x.error else EIO)
              && (r.Ok? ==> OthersKept(old(Now()), Now(), x.value))
              && (r.Ok? && x.value in old(files) ==>
                    && Now() == Unlinked(old(Now()), d.value, name, x.value)
                    && Orphans(Now()) == Unrecorded(old(Now()), x.value)
                    && (Unrecorded(old(Now()), x.value) == {} ==> Valid()))
              && (r.Ok? && x.value !in old(files) ==>
                    && Now() == RemovedDir(old(Now()), d.value, name)
                    && (x.value != d.value ==> (Valid() <==> EntriesOf(old(container.nodes), x.value) == [])))
      ensures r.Err? ==> NumbersKept(old(inodes.Given()), inodes.Given(), {})
      ensures r.Ok? ==>
                var d := SlotOr0(old(inodes.SlotOfIno(parentIno)));
                NumbersKept(old(inodes.Given()), inodes.Given(), {SlotNamed(old(container.nodes), d, name)})
      ensures container.Wiped(old(container.nodes)) && nextFh == old(nextFh)
    {
      hide NumbersKept;
      hide VnmContainer.Wiped;
      hide VnmContainer.Valid;
      hide Sound;
      hide VenomFuse.TableOk;
      hide VenomFuse.Views;
      hide Unlinked;
      hide RemovedDir;
      hide Unlisted;
      hide FindName;
      hide HasName;
      hide OthersKept;
      hide Orphans;
      hide Unrecorded;
      hide ListsOwn;
      hide SlotNamed;
      ghost var past := container.history;
      container.LatestIsNow();
      var pSlot := inodes.SlotOfIno(parentIno);
      if pSlot.None? {
        NumbersStay(inodes.Given());
        container.NothingFreed();
        return Err(ENOENT);
      }
      KnownNode(Now(), pSlot.value);
      ghost var x := ListedAt(container.nodes, pSlot, name);
      if x.Ok? {
        ListedNode(Now(), pSlot, name);
        if x.value in files { UnlinkedAll(Now(), pSlot.value, name, x.value); }
        else { UnlinkedDir(Now(), pSlot.value, name, x.value); }
      }
      r := UnlinkIn(pSlot.value, name);
      container.FreedIsWiped(old(container.nodes), past);
    }

    method UnlinkIn(d: nat, name: string) returns (r: Result<(), Errno>)
      requires Valid() && d in container.nodes
      requires var x := ListedAt(container.nodes, Some(d), name); x.Ok? && x.value in files ==> ListsOwn(Now(), x.value)
      modifies this, container, container.store, inodes
      ensures container.Valid() && container.lost == old(container.lost) && inodes.Valid() && TableOk()
      ensures r.Err? ==> Now() == old(Now()) && openFiles == old(openFiles)
      ensures var x := ListedAt(old(container.nodes), Some(d), name);
              && (r.Ok? <==> x.Ok? && container.Fits(Unlisted(old(container.nodes), d, name)))
              && (r.Err? ==> r.error == if x.Err? then x.error else EIO)
              && (r.Ok? ==>
                    Now() == if x.value in old(files) then Unlinked(old(Now()), d, name, x.value)
                             else RemovedDir(old(Now()), d, name))
      ensures r.Err? ==> NumbersKept(old(inodes.Given()), inodes.Given(), {})
      ensures r.Ok? ==> NumbersKept(old(inodes.Given()), inodes.Given(), {SlotNamed(old(container.nodes), d, name)})
      ensures old(container.history) <= container.history && nextFh == old(nextFh)
    {
      hide NumbersKept;
      hide FileView.Slots;
      hide VnmContainer.Valid;
      hide Sound;
      hide VenomFuse.TableOk;
      hide VenomFuse.Views;
      hide Unlinked;
      hide Unlisted;
      hide ListedAt;
      hide OthersKept;
      hide Orphans;
      hide Unrecorded;
      hide Discarded;
      hide Listing;
      hide DirectOk;
      hide SlotNamed;
      hide HasName;
      ghost var s := Now();
      var removed := DirRemoveEntry(d, name);
      if removed.Err? {
        NumbersStay(inodes.Given());
        return Err(removed.error);
      }
      var x := removed.value;
      ListedNode(s, Some(d), name);
      DirIs(s.nodes, d, name);
      var kind := ReadKind(x);
      if kind.FileKind? {
        UnlinkedAll(s, d, name, x);
        Discard(x, s.files[x].chain);
      } else {
        UnlinkedDir(s, d, name, x);
        DirsHaveNoHandle(s, x);
        DiscardDir(x);
      }
      r := Ok(());
    }

    /** No handle is that of a directory. */
    lemma DirsHaveNoHandle(s: State, x: nat)
      requires Sound(s) && x in s.nodes && s.nodes[x].Directory? && s.views == Views()
      ensures forall fh :: fh in openFiles ==> openFiles[fh].headSlot != x
    {
      hide Sound;
      HeadsAreFiles(s);
      forall fh | fh in openFiles ensures openFiles[fh].headSlot != x {
        assert s.views[fh].h.head == openFiles[fh].headSlot;
      }
    }

    /** Drop an unlisted file's handles, free its listed slots and forget it. */
    method Discard(x: nat, ghost chain: seq<nat>)
      requires container.Valid() && DirectOk(container.nodes, x, chain)
      requires inodes.Valid() && TableOk()
      modifies this, container, container.store, inodes
      ensures container.Valid() && container.lost == old(container.lost) && inodes.Valid() && TableOk()
      ensures Now() == Discarded(old(Now()), x, chain)
      ensures NumbersKept(old(inodes.Given()), inodes.Given(), {x}) && old(container.history) <= container.history
      ensures nextFh == old(nextFh)
    {
      hide NumbersKept;
      hide OpenFile.View;
      hide InodeMap.SlotOfIno;
      hide InodeMap.Given;
      hide InodeMap.Valid;
      hide VnmContainer.Valid;
      hide DirectOk;
      hide Listing;
      hide VenomFuse.TableOk;
      hide VenomFuse.Views;
      CloseAll(x);
      ForgetFile(x, chain);
    }

    /** Free a file's listed slots and forget it, once it has no handle. */
    method ForgetFile(x: nat, ghost chain: seq<nat>)
      requires container.Valid() && DirectOk(container.nodes, x, chain)
      requires inodes.Valid() && TableOk() && forall fh :: fh in openFiles ==> openFiles[fh].headSlot != x
      modifies this`files, this`parent, container, container.store, inodes
      ensures container.Valid() && container.lost == old(container.lost) && inodes.Valid() && TableOk()
      ensures var s := old(Now());
              Now() == State(s.nodes - Listing(s.nodes, x, chain), s.files - {x}, s.root, s.parent - {x}, s.views,
                             s.known - {x})
      ensures NumbersKept(old(inodes.Given()), inodes.Given(), {x}) && old(container.history) <= container.history
    {
      hide NumbersKept;
      hide VnmContainer.Valid;
      hide DirectOk;
      hide Listing;
      hide VenomFuse.TableOk;
      hide VenomFuse.Views;
      FreeFile(x, chain);
      Unlearn(x);
      files := files - {x};
      parent := parent - {x};
    }

    /** Drop every handle of this head. */
    method CloseAll(x: nat)
      requires TableOk()
      modifies this`openFiles
      ensures TableOk() && forall fh :: fh in openFiles ==> openFiles[fh].headSlot != x
      ensures Views() == map fh | fh in old(Views()) && old(Views())[fh].h.head != x :: old(Views())[fh]
    {
      hide InodeMap.SlotOfIno;
      hide OpenFile.View;
      ViewHeads();
      ghost var views := Views();
      openFiles := map fh | fh in openFiles && openFiles[fh].headSlot != x :: openFiles[fh];
      assert forall fh :: fh in openFiles <==> fh in views && views[fh].h.head != x;
    }

    lemma ViewHeads()
      ensures forall fh :: fh in openFiles ==> Views()[fh].h.head == openFiles[fh].headSlot
    {
    }

    /**
     Onto any name but one under which the new parent lists itself. Of a replaced file only the head is
     freed, and of a replaced directory its own slot; what else they had stays in use, and a handle of a
     replaced file stays in the table. Once the old parent is rewritten a failure leaves the node unlisted.
     */
    method OpRename(parentIno: nat, name: string, newParentIno: nat, newName: string) returns (r: Result<(), Errno>)
      requires Valid()
      requires TargetStays(container.nodes, inodes.SlotOfIno(parentIno), name, inodes.SlotOfIno(newParentIno), newName)
      modifies this`parent, this`files, container, container.store, inodes
      ensures container.Valid() && container.lost == old(container.lost) && inodes.Valid()
      ensures var d, d' := old(inodes.SlotOfIno(parentIno)), old(inodes.SlotOfIno(newParentIno));
              var x := RenameResult(container, old(container.nodes), d, name, d', newName);
              && r == x.0
              && (r.Err? && x.1 ==> Valid() && Now() == old(Now()))
              && (r.Err? && !x.1 ==> Now() == HalfRenamed(old(Now()), SlotOr0(d), name, SlotOr0(d'), newName))
              && (r.Ok? ==> RenameDone(old(Now()), SlotOr0(d), name, SlotOr0(d'), newName))
              && NumbersKept(old(inodes.Given()), inodes.Given(),
                             if r.Err? && x.1 then {}
                             else Replaced(MovedOut(old(container.nodes), SlotOr0(d), name), SlotOr0(d'), newName))
      ensures container.Wiped(old(container.nodes))
    {
      hide NumbersKept;
      hide VnmContainer.Wiped;
      hide VnmContainer.Valid;
      hide Sound;
      hide VenomFuse.TableOk;
      hide VenomFuse.Views;
      hide VenomFuse.RenameDone;
      hide HalfRenamed;
      hide Unlisted;
      hide PlacedIn;
      hide MovedOut;
      hide FindName;
      hide HasName;
      hide SlotNamed;
      hide Replaced;
      ghost var past := container.history;
      container.LatestIsNow();
      var pSlot := inodes.SlotOfIno(parentIno);
      NumbersStay(inodes.Given());
      container.NothingFreed();
      if pSlot.None? { return Err(ENOENT); }
      var npSlot := inodes.SlotOfIno(newParentIno);
      if npSlot.None? { return Err(ENOENT); }
      KnownNode(Now(), pSlot.value);
      KnownNode(Now(), npSlot.value);
      r := MoveEntry(pSlot.value, name, npSlot.value, newName);
      container.FreedIsWiped(old(container.nodes), past);
    }

    /** The state after a rename, and exactly when it is sound. */
    ghost predicate RenameDone(s: State, d: nat, name: string, d': nat, newName: string)
      reads this, container, container.store, inodes, openFiles.Values
    {
      var gone := Replaced(MovedOut(s.nodes, d, name), d', newName);
      && Now() == Renamed(s, d, name, d', newName)
      && (gone == {} ==> Valid())
      && forall v :: v in gone ==>
           && OthersKept(s, Now(), v)
           && (v in s.files ==>
                 && Orphans(Now()) == s.files[v].Slots() - {v}
                 && (Valid() <==> !s.IsOpen(v) && s.files[v].Slots() == {v}))
           && (v !in s.files && v != d ==> (Valid() <==> EntriesOf(s.nodes, v) == []))
    }

    method ReadKind(x: nat) returns (kind: NodeKind)
      requires container.Valid() && x in container.nodes
      ensures kind == KindOf(container.nodes, x)
    {
      hide VnmContainer.Valid;
      var node := container.ReadNode(x);
      kind := if node.value.Directory? then DirectoryKind else FileKind;
    }

    method MoveEntry(d: nat, name: string, d': nat, newName: string) returns (r: Result<(), Errno>)
      requires Valid() && d in container.nodes && d' in container.nodes
      requires TargetStays(container.nodes, Some(d), name, Some(d'), newName)
      modifies this`parent, this`files, container, container.store, inodes
      ensures container.Valid() && container.lost == old(container.lost) && inodes.Valid()
      ensures var x := RenameResult(container, old(container.nodes), Some(d), name, Some(d'), newName);
              && r == x.0
              && (r.Err? && x.1 ==> Valid() && Now() == old(Now()))
              && (r.Err? && !x.1 ==> Now() == HalfRenamed(old(Now()), d, name, d', newName))
              && (r.Ok? ==> RenameDone(old(Now()), d, name, d', newName))
              && NumbersKept(old(inodes.Given()), inodes.Given(),
                             if r.Err? && x.1 then {}
                             else Replaced(MovedOut(old(container.nodes), d, name), d', newName))
      ensures old(container.history) <= container.history
    {
      hide NumbersKept;
      hide InodeMap.Given;
      hide VnmContainer.Free;
      hide VnmContainer.Fits;
      hide VenomFuse.NoneHas;
      hide VnmContainer.Valid;
      hide Sound;
      hide VenomFuse.TableOk;
      hide VenomFuse.Views;
      hide Orphans;
      hide OthersKept;
      hide Unlisted;
      hide PlacedIn;
      hide FindName;
      hide HasName;
      hide SlotNamed;
      hide Replaced;
      hide Placed;
      hide Renamed;
      hide VenomFuse.RenameDone;
      ghost var s := Now();
      var moved := DirRemoveEntry(d, name);
      if moved.Err? {
        NumbersStay(inodes.Given());
        return Err(moved.error);
      }
      RenameTarget(s, d, name, d', newName);
      ghost var mid, gone := container.nodes, Replaced(container.nodes, d', newName);
      assert mid == MovedOut(s.nodes, d, name);
      ghost var here := Now();
      r := PlaceEntry(moved.value, d', newName, gone);
      if r.Ok? {
        RenamedIs(s, here, d, name, d', newName);
        Concluded(s, d, name, d', newName);
      }
    }

    lemma RenamedIs(s: State, here: State, d: nat, name: string, d': nat, newName: string)
      requires here == s.(nodes := MovedOut(s.nodes, d, name))
      ensures Renamed(s, d, name, d', newName) ==
                Placed(here, SlotNamed(s.nodes, d, name), d', newName, Replaced(here.nodes, d', newName))
    {
    }

    /** No handle is that of one of these heads. */
    ghost predicate NoneHas(gone: set<nat>)
      reads `openFiles, openFiles.Values
    {
      forall fh :: fh in openFiles ==> openFiles[fh].headSlot !in gone
    }

    /** List an unlisted node in d', in place of what has the name there. */
    method PlaceEntry(x: nat, d': nat, newName: string, ghost gone: set<nat>) returns (r: Result<(), Errno>)
      requires container.Valid() && x in container.nodes && d' in container.nodes
      requires gone == Replaced(container.nodes, d', newName) && gone <= container.nodes.Keys && d' !in gone
      requires inodes.Valid() && TableOk()
      modifies this`parent, this`files, container, container.store, inodes
      ensures container.Valid() && container.lost == old(container.lost) && inodes.Valid()
      ensures TableOk() <==> NoneHas(gone)
      ensures r == if !old(container.nodes[d'].Directory?) then Err(ENOTDIR)
                   else if !container.Fits(PlacedIn(old(container.nodes), x, d', newName)) then Err(EIO) else Ok(())
      ensures Now() == if r.Ok? then Placed(old(Now()), x, d', newName, gone)
                       else var s := old(Now()); s.(nodes := s.nodes - gone, known := s.known - gone)
      ensures NumbersKept(old(inodes.Given()), inodes.Given(), gone) && old(container.history) <= container.history
    {
      hide NumbersKept;
      hide InodeMap.Given;
      hide VnmContainer.Valid;
      hide VenomFuse.TableOk;
      hide VenomFuse.Views;
      hide VenomFuse.NoneHas;
      hide Unlisted;
      hide Replaced;
      var kind := ReadKind(x);
      var entries := DropReplaced(d', newName, gone);
      if entries.Err? { return Err(entries.error); }
      var u := container.UpdateNode(d', Directory(entries.value + [DirEntry(newName, x, kind)]));
      if u.Err? { return Err(EIO); }
      parent := (parent - gone)[x := d'];
      files := files - gone;
      r := Ok(());
    }

    lemma Concluded(s: State, d: nat, name: string, d': nat, newName: string)
      requires Sound(s) && ListedAt(s.nodes, Some(d), name).Ok? && d' in s.nodes && s.nodes[d'].Directory?
      requires TargetStays(s.nodes, Some(d), name, Some(d'), newName)
      requires container.Valid() && inodes.Valid() && Now() == Renamed(s, d, name, d', newName) && s.views == Views()
      requires var gone := Replaced(MovedOut(s.nodes, d, name), d', newName);
               TableOk() <==> NoneHas(gone)
      ensures RenameDone(s, d, name, d', newName)
    {
      hide VnmContainer.Valid;
      hide InodeMap.Valid;
      hide VenomFuse.TableOk;
      hide VenomFuse.Views;
      hide Sound;
      hide Renamed;
      hide Replaced;
      hide MovedOut;
      hide Orphans;
      hide OthersKept;
      hide FileView.Slots;
      RenamedAll(s, d, name, d', newName);
      RenameTarget(s, d, name, d', newName);
      OpenOnes(s, Replaced(MovedOut(s.nodes, d, name), d', newName));
    }

    /** Whether one of these heads is open, by the table and by the state. */
    lemma OpenOnes(s: State, gone: set<nat>)
      requires s.views == Views() && Sound(s)
      ensures forall v :: v in gone && s.IsOpen(v) ==> !NoneHas(gone)
      ensures (forall v :: v in gone ==> !s.IsOpen(v)) ==> NoneHas(gone)
      ensures forall v :: v in gone && v !in s.files ==> !s.IsOpen(v)
    {
      hide FilesSound;
      hide TreeSound;
      hide KnownSound;
      forall fh | fh in openFiles ensures s.views[fh].h.head == openFiles[fh].headSlot {
      }
    }

    /** The entries of the new parent without the replaced one, whose head is freed and forgotten. */
    method DropReplaced(d': nat, newName: string, ghost gone: set<nat>) returns (r: Result<seq<DirEntry>, Errno>)
      requires container.Valid() && d' in container.nodes
      requires gone == Replaced(container.nodes, d', newName) && gone <= container.nodes.Keys && d' !in gone
      requires inodes.Valid() && TableOk()
      modifies container, container.store, inodes
      ensures container.Valid() && container.lost == old(container.lost) && inodes.Valid()
      ensures TableOk() <==> NoneHas(gone)
      ensures r == if old(container.nodes[d'].Directory?) then Ok(Unlisted(old(container.nodes), d', newName).entries)
                   else Err(ENOTDIR)
      ensures container.nodes == old(container.nodes) - gone
      ensures inodes.slotToIno.Keys == old(inodes.slotToIno.Keys) - gone
      ensures NumbersKept(old(inodes.Given()), inodes.Given(), gone) && old(container.history) <= container.history
    {
      hide NumbersKept;
      hide VnmContainer.Free;
      hide InodeMap.Valid;
      hide VnmContainer.Valid;
      hide HasName;
      var dest := ReadDirBlock(d');
      NumbersStay(inodes.Given());
      if dest.Err? { return Err(dest.error); }
      var entries := dest.value;
      var pos := FindName(entries, newName);
      if pos.Some? {
        var victim := entries[pos.value].slot;
        entries := entries[..pos.value] + entries[pos.value + 1..];
        container.FreeNode(victim);
        inodes.RemoveSlot(victim);
      }
      r := Ok(entries);
    }
  }
}
