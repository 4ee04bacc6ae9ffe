/**
 What a flush (vnmcore/src/fs/fuse.rs, `flush_fh`) promises from one moment of a file to another, and how
 these promises add up over its steps.
 */
module Flushes {
  import opened Wrappers
  import opened Bytes
  import opened VaultFs
  import opened Container
  import opened Handle
  import opened IndexChain
  import opened FileState
  import opened FlushSteps
  import opened FlushLimits

  // ── The disk on the way ───────────────────────────────────────────────────

  /** Every disk state recorded since `from` shows these bytes for a file without overflow chain. */
  ghost predicate Shows(history: seq<Nodes>, from: nat, head: nat, b: seq<byte>) {
    forall k :: from <= k < |history| ==> DiskBytes(history[k], head, []) == b
  }

  /**
   Every disk state recorded since `from` shows these bytes; only the last one of a successful flush may
   be the new state instead.
   */
  ghost predicate FlushShows(history: seq<Nodes>, from: nat, head: nat, b: seq<byte>, now: Nodes, ok: bool) {
    forall k :: from <= k < |history| ==>
      DiskBytes(history[k], head, []) == b || (ok && k == |history| - 1 && history[k] == now)
  }

  /**
   What a reader of the disk sees of a flush of a file that has only appended, over the states recorded since
   `from`; a failed flush of a short file leaves it as far behind as it was.
   */
  ghost predicate FlushSeen(m0: Instant, m: Instant, history: seq<Nodes>, from: nat, ok: bool) {
    var b := DiskBytes(m0.nodes, m0.h.head, []);
    && (Appending(m0.h, m0.nodes) ==> FlushShows(history, from, m0.h.head, b, m.nodes, ok))
    && (Appending(m0.h, m0.nodes) && !ok && Short(m0.h.total) ==>
          Appending(m.h, m.nodes) && DiskBytes(m.nodes, m0.h.head, []) == b)
    && (m0.h.chain == None && ok && Short(m0.h.total) ==> m.h.chain == None)
  }

  /** A step that a reader of the disk does not see. */
  ghost predicate StepSeen(m0: Instant, m: Instant, history: seq<Nodes>, from: nat) {
    var b := DiskBytes(m0.nodes, m0.h.head, []);
    Appending(m0.h, m0.nodes) ==>
      Appending(m.h, m.nodes) && DiskBytes(m.nodes, m0.h.head, []) == b && Shows(history, from, m0.h.head, b)
  }

  lemma SeenThen(m0: Instant, m1: Instant, m: Instant, history1: seq<Nodes>, history: seq<Nodes>, from: nat, ok: bool)
    requires StepSeen(m0, m1, history1, from) && FlushSeen(m1, m, history, |history1|, ok)
    requires m1.h.head == m0.h.head && m1.h.total == m0.h.total && m1.h.chain == m0.h.chain
    requires history1 <= history && from <= |history1|
    ensures FlushSeen(m0, m, history, from, ok)
  {
    hide Appending;
    hide DiskBytes;
    if Appending(m0.h, m0.nodes) {
      forall k | from <= k < |history1|
        ensures DiskBytes(history[k], m0.h.head, []) == DiskBytes(m0.nodes, m0.h.head, [])
      {
        assert history[k] == history1[k];
      }
    }
  }

  lemma SeenParts(m0: Instant, m: Instant, history: seq<Nodes>, from: nat, ok: bool)
    requires FlushSeen(m0, m, history, from, ok)
    ensures Appending(m0.h, m0.nodes) ==>
              var b := DiskBytes(m0.nodes, m0.h.head, []);
              && FlushShows(history, from, m0.h.head, b, m.nodes, ok)
              && (Short(m0.h.total) ==>
                    if ok then m.h.chain == None
                    else Appending(m.h, m.nodes) && DiskBytes(m.nodes, m0.h.head, []) == b)
  {
    hide DiskBytes;
    hide FlushShows;
  }

  lemma SeenOnly(m0: Instant, m: Instant, history: seq<Nodes>, from: nat, ok: bool)
    requires StepSeen(m0, m, history, from) && m.h.chain == m0.h.chain
    ensures FlushSeen(m0, m, history, from, ok)
  {
    hide Appending;
    hide DiskBytes;
  }

  // ── The file ──────────────────────────────────────────────────────────────

  /** The file is sound, has its bytes and has touched only its own and free slots. */
  ghost predicate FileKept(m0: Instant, m: Instant) {
    && FileOk(m.h, m.nodes, m.chain) && FileBytes(m.h, m.nodes) == FileBytes(m0.h, m0.nodes)
    && Touched(m0.h, m0.chain, m0.nodes, m.h, m.chain, m.nodes)
  }

  /** What does not belong to the file is as it was. */
  ghost predicate OutsideKept(m0: Instant, m: Instant) {
    forall s :: s in m0.nodes && s !in Footprint(m0.h, m0.chain) ==> s in m.nodes && m.nodes[s] == m0.nodes[s]
  }

  /** What a failed flush leaves: the bytes, and the file unless its overflow chain was being rewritten. */
  ghost predicate FlushFails(m0: Instant, m: Instant) {
    && Dense(m.h, m.nodes) && FileBytes(m.h, m.nodes) == FileBytes(m0.h, m0.nodes)
    && OutsideKept(m0, m) && (FileKept(m0, m) || ChainLost(m0, m))
  }

  lemma KeptParts(m0: Instant, m: Instant)
    requires FileKept(m0, m)
    ensures FileOk(m.h, m.nodes, m.chain) && FileBytes(m.h, m.nodes) == FileBytes(m0.h, m0.nodes)
    ensures Touched(m0.h, m0.chain, m0.nodes, m.h, m.chain, m.nodes)
  {
  }

  lemma FailsParts(m0: Instant, m: Instant)
    requires FlushFails(m0, m)
    ensures Dense(m.h, m.nodes) && FileBytes(m.h, m.nodes) == FileBytes(m0.h, m0.nodes) && OutsideKept(m0, m)
    ensures FileKept(m0, m) || ChainLost(m0, m)
  {
  }

  lemma KeptIsKept(m0: Instant, m: Instant)
    requires FileKept(m0, m)
    ensures FlushFails(m0, m) && OutsideKept(m0, m)
  {
  }

  lemma KeptStill(m: Instant)
    requires FileOk(m.h, m.nodes, m.chain)
    ensures FileKept(m, m)
  {
    FootprintInUse(m.h, m.nodes, m.chain);
  }

  lemma KeptThen(m0: Instant, m1: Instant, m: Instant)
    requires FileKept(m0, m1) && FileKept(m1, m)
    ensures FileKept(m0, m)
  {
    hide FileOk;
    hide Touched;
    TouchedTrans(m0.h, m0.chain, m0.nodes, m1.h, m1.chain, m1.nodes, m.h, m.chain, m.nodes);
  }

  lemma FailsThen(m0: Instant, m1: Instant, m: Instant)
    requires FileKept(m0, m1) && FlushFails(m1, m)
    requires m1.chain == m0.chain && m1.h.chain == m0.h.chain && m1.lost == m0.lost
    ensures FlushFails(m0, m)
  {
    hide FileOk;
    hide Touched;
    hide Footprint;
    hide Dense;
    hide FileBytes;
    StillOutside(m0.h, m0.chain, m0.nodes, m1.h, m1.nodes, m.nodes);
    if FileKept(m1, m) { KeptThen(m0, m1, m); }
  }

  /** A failed flush counts every chunk as dirty again. */
  lemma FailsRemarked(m0: Instant, m: Instant, d: set<nat>)
    requires FileOk(m0.h, m0.nodes, m0.chain) && FlushFails(m0, m.Marked(d))
    requires d == m.h.dirty * {0} && m.h.dirty == m0.h.dirty && m.h.total == m0.h.total
    ensures FlushFails(m0, m)
  {
    var g := m.Marked(d);
    DenseRemarked(m0.h, g.h, m.h, m.nodes, m0.nodes, m0.chain);
    assert 0 in d <==> 0 in m.h.dirty;
    hide Dense;
    hide FileBytes;
    hide Footprint;
    hide Walk;
    if FileKept(m0, g) { TouchedAnyDirty(m0.h, m0.nodes, g.h, m.h, m.nodes, m0.chain, m.chain); }
    hide Touched;
    hide Synced;
  }

  lemma DenseRemarked(h0: Handle, g: Handle, h: Handle, nodes: Nodes, nodes0: Nodes, chain0: seq<nat>)
    requires FileOk(h0, nodes0, chain0) && Dense(g, nodes) && g == h.(dirty := g.dirty) && g.dirty <= h.dirty
    requires h.dirty == h0.dirty && h.total == h0.total
    ensures Dense(h, nodes) && FileBytes(h, nodes) == FileBytes(g, nodes)
  {
    assert forall i: nat :: Stored(g, nodes, i) == Stored(h, nodes, i);
    assert forall i: nat :: Chunk(g, nodes, i) == Chunk(h, nodes, i);
    SameContents(g, nodes, h, nodes, h.total);
  }

  lemma SeenRemarked(m0: Instant, m: Instant, d: set<nat>, history: seq<Nodes>, from: nat)
    requires FlushSeen(m0, m.Marked(d), history, from, false)
    ensures FlushSeen(m0, m, history, from, false)
  {
    var g := m.Marked(d);
    assert forall i: nat :: SlotOf(g.h, i) == SlotOf(m.h, i);
    assert forall i: nat :: Stored(g.h, m.nodes, i) == Stored(m.h, m.nodes, i);
    assert forall i: nat :: Chunk(g.h, m.nodes, i) == Chunk(m.h, m.nodes, i);
  }

  // ── The whole flush ───────────────────────────────────────────────────────

  /** A clean file is not touched. */
  lemma CleanFlush(c: VnmContainer, m: Instant, history: seq<Nodes>)
    requires FileOk(m.h, m.nodes, m.chain) && Clean(m.h)
    ensures FlushLeaves(c, m, m, true) && FileKept(m, m) && FlushSeen(m, m, history, |history|, true)
    ensures FlushedNodes(m.h, m.nodes) == m.nodes
  {
    KeptStill(m);
  }

  /** Step 1 could not be finished. */
  lemma NotStored(c: VnmContainer, m0: Instant, m: Instant)
    requires !Clean(m0.h) && !Storable(c, m0.h, Continuations(m0.h.dirty), |m0.free|)
    requires m.h == m0.h.(slotMap := m.h.slotMap, metaDirty := m.h.metaDirty) && SlotsGiven(m0.h, m.h)
    requires m.chain == m0.chain && TakenOff(m0.free, m0.lost, m.free, m.lost, false)
    ensures FlushLeaves(c, m0, m, false) && !GoesThrough(c, m0.h, m0.chain, |m0.free|, m.h, m.nodes)
  {
  }

  /** Step 1 done, whatever becomes of the rest. */
  lemma RestOfFlush(c: VnmContainer, m0: Instant, mid: Instant, m: Instant, ok: bool)
    requires !Clean(m0.h) && Storable(c, m0.h, Continuations(m0.h.dirty), |m0.free|)
    requires StoredAll(m0, mid) && RestLeaves(mid, m, ok)
    requires ok <==> FinishFits(c, mid.h, mid.chain, mid.free, m.h, m.nodes)
    ensures FlushLeaves(c, m0, m, ok)
    ensures mid.chain == m0.chain && mid.h.chain == m0.h.chain && mid.lost == m0.lost && mid.h.head == m0.h.head
    ensures mid.h.dirty == m0.h.dirty && mid.h.total == m0.h.total && m.h.total == m0.h.total
  {
    hide Storable;
    hide FinishFits;
    hide SlotsGiven;
    hide ChainTook;
    hide Unallocated;
  }

  /** Step 1 done: what it has shown and kept, and the slots it took. */
  lemma AllStoredIs(c: VnmContainer, m0: Instant, m: Instant)
    requires FileOk(m.h.(dirty := m.h.dirty * {0}), m.nodes, m.chain)
    requires Placing(c, m0.h, |m0.free|, m.h, {}, |m.free|) && SlotsGiven(m0.h, m.h)
    requires m.h == m0.h.(slotMap := m.h.slotMap, metaDirty := m.h.metaDirty) && m.chain == m0.chain
    requires TakenOff(m0.free, m0.lost, m.free, m.lost, true)
    ensures StoredAll(m0, m)
  {
    hide Storable;
    hide FileOk;
    PlacingEnds(c, m0.h, |m0.free|, m.h, |m.free|);
    NoHoles(m.h.(dirty := m.h.dirty * {0}), m.nodes, m.chain);
  }

  /** Steps 2 and 3 with a head to rewrite, from what the drain and the head promise. */
  lemma AfterDrain(m0: Instant, m2: Instant, m: Instant, d: set<nat>, history2: seq<Nodes>, history: seq<Nodes>,
                   from: nat, ok: bool)
    requires FileKept(m0, m2) && StepSeen(m0, m2, history2, from) && history2 <= history && from <= |history2|
    requires m2.chain == m0.chain && m2.h.chain == m0.h.chain && m2.lost == m0.lost
    requires m2.h.head == m0.h.head && m2.h.total == m0.h.total
    requires if ok then FileKept(m2, m.Cleaned()) else FlushFails(m2, m.Marked(d))
    requires FlushSeen(m2, if ok then m.Cleaned() else m.Marked(d), history, |history2|, ok)
    ensures FlushSeen(m0, if ok then m.Cleaned() else m.Marked(d), history, from, ok)
    ensures if ok then FileKept(m0, m.Cleaned()) else FlushFails(m0, m.Marked(d))
  {
    hide FileKept;
    hide FlushFails;
    hide FlushSeen;
    hide StepSeen;
    var end := if ok then m.Cleaned() else m.Marked(d);
    SeenThen(m0, m2, end, history2, history, from, ok);
    if ok { KeptThen(m0, m2, end); } else { FailsThen(m0, m2, end); }
  }

  /** A flush whose step 1 is done, from what the rest of it promises. */
  lemma FlushDone(c: VnmContainer, m0: Instant, mid: Instant, m: Instant, history1: seq<Nodes>, history: seq<Nodes>,
                  from: nat, ok: bool)
    requires FileOk(m0.h, m0.nodes, m0.chain) && !Clean(m0.h) && Storable(c, m0.h, Continuations(m0.h.dirty), |m0.free|)
    requires StoredAll(m0, mid) && RestLeaves(mid, m, ok)
    requires ok <==> FinishFits(c, mid.h, mid.chain, mid.free, m.h, m.nodes)
    requires var g := mid.Marked(mid.h.dirty * {0});
             && FileKept(m0, g) && StepSeen(m0, g, history1, from) && history1 <= history && from <= |history1|
             && (if ok then FileKept(g, m) else FlushFails(g, m.Marked(mid.h.dirty * {0})))
             && FlushSeen(g, if ok then m else m.Marked(mid.h.dirty * {0}), history, |history1|, ok)
    ensures FlushLeaves(c, m0, m, ok) && FlushSeen(m0, m, history, from, ok)
    ensures if ok then FileKept(m0, m) else FlushFails(m0, m)
    ensures m.h.cache == m0.h.cache && m.h.total == m0.h.total && (!ok ==> m.h.dirty == m0.h.dirty)
    ensures mid.lost == m0.lost
  {
    hide FileOk;
    hide Storable;
    hide FinishFits;
    hide FlushLeaves;
    hide FileKept;
    hide FlushFails;
    hide FlushSeen;
    hide StepSeen;
    hide SlotsGiven;
    hide ChainTook;
    hide Unallocated;
    var d := mid.h.dirty * {0};
    RestOfFlush(c, m0, mid, m, ok);
    if ok {
      KeptThen(m0, mid.Marked(d), m);
      SeenThen(m0, mid.Marked(d), m, history1, history, from, true);
    } else {
      FailsThen(m0, mid.Marked(d), m.Marked(d));
      FailsRemarked(m0, m, d);
      SeenThen(m0, mid.Marked(d), m.Marked(d), history1, history, from, false);
      SeenRemarked(m0, m, d, history, from);
    }
  }

  // ── The head ──────────────────────────────────────────────────────────────

  /** Whatever becomes of the overflow chain, the handle still shows its bytes. */
  lemma HeadKeeps(h: Handle, nodes: Nodes, mid: Nodes, chain: seq<nat>)
    requires FileOk(h, nodes, chain)
    requires forall s :: s in nodes && s !in SlotSet(chain) ==> s in mid && mid[s] == nodes[s]
    ensures Dense(h, mid) && FileBytes(h, mid) == FileBytes(h, nodes)
  {
    OutsideChain(h, nodes, chain);
    forall i | 0 <= i < |h.slotMap| && h.slotMap[i].Some?
      ensures h.slotMap[i].value in mid && mid[h.slotMap[i].value] == nodes[h.slotMap[i].value]
    {
      assert h.slotMap[i].value in DataSlots(h);
    }
    forall i: nat ensures Stored(h, mid, i) == Stored(h, nodes, i) && Chunk(h, mid, i) == Chunk(h, nodes, i) {
    }
    SameContents(h, nodes, h, mid, h.total);
  }

  /** The old chain is gone and the new one could not be written. */
  lemma ChainIsLost(m0: Instant, m: Instant, history: seq<Nodes>, from: nat)
    requires FileOk(m0.h, m0.nodes, m0.chain) && m.h == m0.h && m.chain == m0.chain
    requires |m0.h.slotMap| == Max(ChunkCount(m0.h.total), 1) && |m0.h.slotMap| > MAX_DIRECT_SLOTS + 1
    requires forall s :: s in m0.nodes && s !in SlotSet(m0.chain) ==> s in m.nodes && m.nodes[s] == m0.nodes[s]
    requires forall s :: s in m0.chain && s in m.nodes ==> m.nodes[s].FileIndex?
    requires m.lost == m0.lost ==> m.free == []
    requires Behind(m0.h, m0.nodes) ==> Shows(history, from, m0.h.head, DiskBytes(m0.nodes, m0.h.head, []))
    ensures FlushFails(m0, m) && FlushSeen(m0, m, history, from, false)
  {
    hide FileOk;
    hide Dense;
    hide FileBytes;
    hide Behind;
    hide DiskBytes;
    HeadKeeps(m0.h, m0.nodes, m.nodes, m0.chain);
    HeadHalfWay(m0.h, m0.nodes, m.nodes, m.nodes, m0.chain);
  }

  /** The new chain is there; the head may be written or not. */
  lemma HeadSeen(m0: Instant, m: Instant, history1: seq<Nodes>, from: nat, history: seq<Nodes>, ok: bool)
    requires FileOk(m.h, m.nodes, m.chain) && FileBytes(m.h, m.nodes) == FileBytes(m0.h, m0.nodes)
    requires Touched(m0.h, m0.chain, m0.nodes, m.h, m.chain, m.nodes)
    requires Behind(m0.h, m0.nodes) ==> Shows(history1, from, m0.h.head, DiskBytes(m0.nodes, m0.h.head, []))
    requires history == if ok then history1 + [m.nodes] else history1
    requires Short(m0.h.total) ==> m.h.chain == None
    requires Behind(m0.h, m0.nodes) && Short(m0.h.total) && !ok ==> m.h == m0.h && m.nodes == m0.nodes
    ensures FileKept(m0, m) && FlushSeen(m0, m, history, from, ok)
    ensures !ok ==> FlushFails(m0, m)
  {
    hide FileOk;
    hide FileBytes;
    hide Behind;
    hide DiskBytes;
    FileIsDense(m.h, m.nodes, m.chain);
    KeptIsKept(m0, m);
  }

  lemma FileIsDense(h: Handle, nodes: Nodes, chain: seq<nat>)
    requires FileOk(h, nodes, chain)
    ensures Dense(h, nodes)
  {
  }
}
