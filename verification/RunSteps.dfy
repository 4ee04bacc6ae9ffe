/**
 The operations through one handle as steps from moment to moment: what each makes of a plain byte string,
 and what it makes of the driver, the handle, the free list and the lost slots.
 */
module RunSteps {
  import opened Wrappers
  import opened Bytes
  import opened VaultFs
  import opened Container
  import opened Handle
  import opened FileState
  import opened FlushLimits
  import opened Flushes
  import opened WriteSteps
  import opened IndexChain
  import opened Fs
  import opened FsState
  import opened DirSteps
  import opened OpenFiles
  import SlotStore

  datatype FileOp =
    | ReadOp(offset: nat, size: nat)
    | WriteOp(at: nat, data: seq<byte>)
    | FlushOp
    | ShrinkOp(newSize: nat)

  /** Dense writes and shrinking only. */
  predicate InDomain(b: seq<byte>, op: FileOp) {
    match op
    case ReadOp(_, _) => true
    case WriteOp(at, _) => at <= |b|
    case FlushOp => true
    case ShrinkOp(newSize) => newSize <= |b|
  }

  predicate AllInDomain(b: seq<byte>, ops: seq<FileOp>)
    decreases |ops|
  {
    ops == [] || (InDomain(b, ops[0]) && AllInDomain(After(b, ops[0]), ops[1..]))
  }

  /** What one operation makes of a plain byte string. */
  function After(b: seq<byte>, op: FileOp): seq<byte> {
    match op
    case ReadOp(_, _) => b
    case WriteOp(at, data) => Spliced(b, at, data)
    case FlushOp => b
    case ShrinkOp(newSize) => Slice(b, 0, newSize)
  }

  /** What one operation returns. */
  function Returned(b: seq<byte>, op: FileOp): seq<byte> {
    match op
    case ReadOp(offset, size) => Slice(b, offset, size)
    case _ => []
  }

  function AfterAll(b: seq<byte>, ops: seq<FileOp>): seq<byte>
    decreases |ops|
  {
    if ops == [] then b else AfterAll(After(b, ops[0]), ops[1..])
  }

  function ReturnedAll(b: seq<byte>, ops: seq<FileOp>): seq<seq<byte>>
    decreases |ops|
  {
    if ops == [] then [] else [Returned(b, ops[0])] + ReturnedAll(After(b, ops[0]), ops[1..])
  }

  /** No prefix of the run makes the file long enough for an overflow chain. */
  predicate AllSmall(b: seq<byte>, ops: seq<FileOp>)
    decreases |ops|
  {
    ChunkCount(|b|) <= MAX_DIRECT_SLOTS + 1 && (ops == [] || AllSmall(After(b, ops[0]), ops[1..]))
  }

  predicate NoShrink(ops: seq<FileOp>) {
    forall i :: 0 <= i < |ops| ==> !ops[i].ShrinkOp?
  }

  predicate ReadOnly(ops: seq<FileOp>) {
    forall i :: 0 <= i < |ops| ==> ops[i].ReadOp? || ops[i].FlushOp?
  }

  // ── Cache bookkeeping ─────────────────────────────────────────────────────

  /** Every dirty chunk is in memory, and at most the threshold of them are continuation chunks. */
  ghost predicate FewDirty(h: Handle) {
    h.dirty <= h.cache.Keys && |Continuations(h.dirty)| <= WRITE_THROUGH_THRESHOLD
  }

  /** The cache of a handle that was only read. */
  ghost predicate ReadCache(h: Handle) {
    Clean(h) && |h.cache| <= MAX_CACHE_CHUNKS
  }

  lemma BookkeepingOfRead(h: Handle, h': Handle, nodes: Nodes)
    requires ReadThrough(h, h', nodes)
    ensures FewDirty(h) ==> FewDirty(h')
    ensures ReadCache(h) ==> ReadCache(h')
  {
    hide Appending;
  }

  lemma BookkeepingOfWrite(h: Handle, h': Handle, ok: bool)
    requires WrittenThrough(h, h', ok)
    ensures ok && FewDirty(h) ==> FewDirty(h')
  {
    if FewDirty(h) { assert DirtyCached(h') == Continuations(h'.dirty); }
  }

  lemma BookkeepingOfFlush(h: Handle, h': Handle, ok: bool)
    requires h'.cache == h.cache && (if ok then h'.dirty == {} else h'.dirty == h.dirty)
    ensures FewDirty(h) ==> FewDirty(h')
  {
    if ok { assert Continuations(h'.dirty) == {}; }
  }

  /** A handle as `open` builds it. */
  lemma BookkeepingOfOpen(nodes: Nodes, head: nat, chain: seq<nat>)
    ensures FewDirty(OpenedView(nodes, head, chain)) && ReadCache(OpenedView(nodes, head, chain))
  {
    assert Continuations({}) == {};
  }

  /** What one operation does to the cache of the handle. */
  ghost predicate CacheStep(h: Handle, h': Handle, op: FileOp, done: bool) {
    && (done && !op.ShrinkOp? && FewDirty(h) ==> FewDirty(h'))
    && ((op.ReadOp? || op.FlushOp?) && ReadCache(h) ==> ReadCache(h'))
  }

  // ── Moments ───────────────────────────────────────────────────────────────

  /** One moment of a run: the driver's state, the handle, the free list and the lost slots. */
  datatype Mark = Mark(s: State, v: FileView, free: seq<nat>, lost: set<nat>)
  {
    /** The file of the handle at this moment. */
    function Here(): Instant {
      Instant(v.h, v.chain, s.nodes, free, lost)
    }
  }

  /** Every data slot of the volume holds a node, is in the descending free list, or is lost, and only one of these. */
  ghost predicate Accounted(vol: SlotStore.Volume, m: Mark) {
    && SlotStore.FreeOk(vol, m.free)
    && (forall x :: vol.IsDataSlot(x) <==> x in m.s.nodes || x in m.free || x in m.lost)
    && (forall x :: x in m.s.nodes ==> x !in m.free && x !in m.lost)
    && (forall x :: x in m.lost ==> x !in m.free)
  }

  /** The driver is sound, and through handle fh file f holds b. */
  ghost predicate Holding(fh: nat, f: nat, m: Mark, b: seq<byte>) {
    && Sound(m.s) && fh in m.s.views && m.s.views[fh] == m.v && m.v.h.head == f
    && f in m.s.files && m.s.files[f] == m.v && m.s.BytesOf(f) == b
  }

  // ── One operation ─────────────────────────────────────────────────────────

  /** A write: the data goes into the cache, and then the lowest dirty chunks may have to leave it for their slots. */
  ghost predicate WriteStepped(c: VnmContainer, at: nat, data: seq<byte>, m: Mark, m': Mark, done: bool) {
    && Touched(m.v.h, m.v.chain, m.s.nodes, m'.v.h, m'.v.chain, m'.s.nodes)
    && WrittenThrough(m.v.h, m'.v.h, done) && (!done ==> m'.free == [] || ChunkTooLarge(c, m'.v.h))
    && exists filled ::
         && Filled(m.v.h, m.s.nodes, m.v.chain, at, data, filled) && Settled(m.Here().(h := filled), m'.Here(), done)
         && (done <==> WritesOut(c, filled, |m.free|))
  }

  /**
   A flush of file f: on success the disk alone holds it; a failure keeps the file, unless its overflow chain
   was being rewritten, and in any case its bytes and the slots of the others.
   */
  ghost predicate FlushStepped(c: VnmContainer, f: nat, m: Mark, m': Mark, done: bool) {
    && FlushLeaves(c, m.Here(), m'.Here(), done)
    && (Short(m.v.h.total) || BlocksFit(c) ==>
          (done <==> Clean(m.v.h) || GoesThrough(c, m.v.h, m.v.chain, |m.free|, m'.v.h, m'.s.nodes)))
    && if done then
         && FileKept(m.Here(), m'.Here()) && DiskBytes(m'.s.nodes, f, m'.v.chain) == m.s.BytesOf(f)
         && FlushedAs(m.v.h, m.v.chain, m.s.nodes, m'.s.nodes)
       else
         SlotsKept(m.s, m'.s.nodes, f) && (FileKept(m.Here(), m'.Here()) || ChainLost(m.Here(), m'.Here()))
  }

  /** One operation through handle fh of file f, from moment to moment, with whether it succeeds and what it returns. */
  ghost predicate OpStepped(c: VnmContainer, fh: nat, f: nat, op: FileOp, m: Mark, m': Mark, done: bool,
                            out: seq<byte>) {
    && OnlyHandle(m.s, m'.s, fh) && m'.s.views[fh] == m'.v && out == Returned(m.s.BytesOf(f), op)
    && match op
       case ReadOp(_, _) =>
         done && m'.Here() == m.Here().(h := m'.v.h) && ReadThrough(m.v.h, m'.v.h, m.s.nodes)
       case ShrinkOp(newSize) =>
         done && m'.Here() == m.Here().(h := if newSize < m.v.h.total then Shrunk(m.v.h, newSize) else m.v.h)
       case WriteOp(at, data) => WriteStepped(c, at, data, m, m', done)
       case FlushOp => FlushStepped(c, f, m, m', done)
  }

  // ── Runs ──────────────────────────────────────────────────────────────────

  /** A run ends early only at a flush that failed on a file too long for a head without overflow chain. */
  ghost predicate CutShort(ops: seq<FileOp>, marks: seq<Mark>, dones: seq<bool>) {
    && 0 < |dones| <= |ops| && |marks| == |dones| + 1
    && ops[|dones| - 1].FlushOp? && !dones[|dones| - 1] && !Short(marks[|dones| - 1].v.h.total)
  }

  /**
   A run of file f from the bytes b, as far as it came: every operation is a step from its moment to the next,
   and at every moment, but the one after a flush that cut the run short, the file holds what it should.
   */
  ghost predicate Traced(c: VnmContainer, fh: nat, f: nat, b: seq<byte>, ops: seq<FileOp>, marks: seq<Mark>,
                         dones: seq<bool>, outs: seq<seq<byte>>) {
    && |outs| == |dones| <= |ops| && |marks| == |dones| + 1
    && (forall i :: 0 <= i < |dones| ==> OpStepped(c, fh, f, ops[i], marks[i], marks[i + 1], dones[i], outs[i]))
    && (forall i :: 0 <= i < |marks| ==> Accounted(c.store.vol, marks[i]))
    && (forall i :: 0 <= i < |marks| && !(i == |dones| && CutShort(ops, marks, dones)) ==>
          Holding(fh, f, marks[i], AfterAll(b, ops[..i])))
  }

  predicate AllDone(dones: seq<bool>) {
    forall i :: 0 <= i < |dones| ==> dones[i]
  }

  lemma NothingTraced(c: VnmContainer, fh: nat, f: nat, b: seq<byte>, m: Mark)
    requires Accounted(c.store.vol, m) && Holding(fh, f, m, b)
    ensures Traced(c, fh, f, b, [], [m], [], []) && !CutShort([], [m], [])
  {
    hide Accounted;
    hide Holding;
  }

  lemma OneTraced(c: VnmContainer, fh: nat, f: nat, b: seq<byte>, ops: seq<FileOp>, marks: seq<Mark>, dones: seq<bool>,
                  outs: seq<seq<byte>>, m: Mark, done: bool, out: seq<byte>)
    requires ops != [] && Traced(c, fh, f, After(b, ops[0]), ops[1..], marks, dones, outs)
    requires OpStepped(c, fh, f, ops[0], m, marks[0], done, out) && Accounted(c.store.vol, m) && Holding(fh, f, m, b)
    requires done || !ops[0].FlushOp? || Short(m.v.h.total)
    ensures Traced(c, fh, f, b, ops, [m] + marks, [done] + dones, [out] + outs)
    ensures CutShort(ops, [m] + marks, [done] + dones) <==> CutShort(ops[1..], marks, dones)
    ensures AllDone([done] + dones) ==> done && AllDone(dones)
  {
    hide OpStepped;
    hide Accounted;
    hide Holding;
    hide After;
    var marks', dones', outs' := [m] + marks, [done] + dones, [out] + outs;
    CutLater(ops, marks, dones, m, done);
    hide CutShort;
    forall i | 0 <= i < |dones'| ensures OpStepped(c, fh, f, ops[i], marks'[i], marks'[i + 1], dones'[i], outs'[i]) {
      if i > 0 {
        assert ops[i] == ops[1..][i - 1] && dones'[i] == dones[i - 1] && marks'[i] == marks[i - 1];
        assert outs'[i] == outs[i - 1];
      }
    }
    forall i | 0 <= i < |marks'| && !(i == |dones'| && CutShort(ops, marks', dones'))
      ensures Holding(fh, f, marks'[i], AfterAll(b, ops[..i]))
    {
      if i > 0 {
        assert marks'[i] == marks[i - 1];
        OneMoreBefore(b, ops, i);
      }
    }
    assert forall i :: 0 <= i < |dones| ==> dones'[i + 1] == dones[i];
    assert dones'[0] == done;
  }

  lemma OneMoreBefore(b: seq<byte>, ops: seq<FileOp>, i: nat)
    requires 1 <= i <= |ops|
    ensures AfterAll(b, ops[..i]) == AfterAll(After(b, ops[0]), ops[1..][..i - 1])
  {
    assert ops[..i][1..] == ops[1..][..i - 1] && ops[..i][0] == ops[0];
  }

  lemma CutLater(ops: seq<FileOp>, marks: seq<Mark>, dones: seq<bool>, m: Mark, done: bool)
    requires ops != [] && |dones| < |ops| && |marks| == |dones| + 1
    requires done || !ops[0].FlushOp? || Short(m.v.h.total)
    ensures CutShort(ops, [m] + marks, [done] + dones) <==> CutShort(ops[1..], marks, dones)
  {
    if dones != [] {
      assert ops[|dones|] == ops[1..][|dones| - 1] && ([done] + dones)[|dones|] == dones[|dones| - 1];
      assert ([m] + marks)[|dones|] == marks[|dones| - 1];
    }
  }

  lemma StoppedHere(c: VnmContainer, fh: nat, f: nat, b: seq<byte>, ops: seq<FileOp>, m: Mark, m': Mark, out: seq<byte>)
    requires ops != [] && ops[0].FlushOp? && !Short(m.v.h.total)
    requires OpStepped(c, fh, f, ops[0], m, m', false, out) && Holding(fh, f, m, b)
    requires Accounted(c.store.vol, m) && Accounted(c.store.vol, m')
    ensures Traced(c, fh, f, b, ops, [m, m'], [false], [out]) && CutShort(ops, [m, m'], [false])
  {
    hide OpStepped;
    hide Accounted;
    hide Holding;
    assert ops[..0] == [];
  }
}
