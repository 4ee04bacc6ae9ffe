/**
 The overflow index of a large file (vnmcore/src/fs/fuse.rs): a linked chain of index slots that is
 written back to front, followed on open and freed on rebuild.
 */
module IndexChain {
  import opened Wrappers
  import opened VaultFs
  import opened Container
  import opened Handle
  import SlotStore
  import FreeList

  /** Following the chain from `first` visits exactly `chain`, without repetition. */
  ghost predicate Walk(nodes: Nodes, first: Option<nat>, chain: seq<nat>)
    decreases |chain|
  {
    match first
    case None => chain == []
    case Some(s) =>
      && chain != [] && chain[0] == s && s in nodes && s !in chain[1..]
      && if nodes[s].FileIndex? then Walk(nodes, nodes[s].nextIndex, chain[1..]) else |chain| == 1
  }

  ghost predicate AllIndexes(nodes: Nodes, chain: seq<nat>) {
    forall s :: s in chain ==> s in nodes && nodes[s].FileIndex?
  }

  /** A well-formed chain: acyclic and made of index slots only. */
  ghost predicate IsChain(nodes: Nodes, first: Option<nat>, chain: seq<nat>) {
    Walk(nodes, first, chain) && AllIndexes(nodes, chain)
  }

  /** The ids recorded along a chain, in order. */
  function ChainIds(nodes: Nodes, chain: seq<nat>): seq<nat> {
    if chain == [] then []
    else
      var ids := if chain[0] in nodes && nodes[chain[0]].FileIndex? then nodes[chain[0]].slotIds else [];
      ids + ChainIds(nodes, chain[1..])
  }

  /** A chain depends on its own slots only. */
  lemma {:induction false} WalkFrame(nodes: Nodes, nodes': Nodes, first: Option<nat>, chain: seq<nat>)
    requires Walk(nodes, first, chain)
    requires forall s :: s in chain ==> s in nodes && s in nodes' && nodes'[s] == nodes[s]
    ensures Walk(nodes', first, chain) && ChainIds(nodes', chain) == ChainIds(nodes, chain)
    decreases |chain|
  {
    if first.Some? && nodes[first.value].FileIndex? {
      WalkFrame(nodes, nodes', nodes[first.value].nextIndex, chain[1..]);
    }
  }

  lemma ChainFrame(nodes: Nodes, nodes': Nodes, first: Option<nat>, chain: seq<nat>)
    requires IsChain(nodes, first, chain)
    requires forall s :: s in chain ==> s in nodes' && nodes'[s] == nodes[s]
    ensures IsChain(nodes', first, chain) && ChainIds(nodes', chain) == ChainIds(nodes, chain)
  {
    WalkFrame(nodes, nodes', first, chain);
  }

  lemma ChainNil(nodes: Nodes)
    ensures IsChain(nodes, None, []) && ChainIds(nodes, []) == []
  {
  }

  /** Putting a fresh index block in front of a chain. */
  lemma ChainCons(nodes: Nodes, nodes': Nodes, next: Option<nat>, chain: seq<nat>, slot: nat, block: seq<nat>)
    requires IsChain(nodes, next, chain) && slot !in nodes
    requires nodes' == nodes[slot := FileIndex(block, next)]
    ensures IsChain(nodes', Some(slot), [slot] + chain)
    ensures ChainIds(nodes', [slot] + chain) == block + ChainIds(nodes, chain)
  {
    ChainFrame(nodes, nodes', next, chain);
    assert ([slot] + chain)[1..] == chain;
  }

  function SlotSet(chain: seq<nat>): set<nat> {
    set s | s in chain
  }

  lemma SlotSetAppend(chain: seq<nat>, s: nat)
    ensures SlotSet(chain + [s]) == SlotSet(chain) + {s}
  {
    assert (chain + [s])[|chain|] == s;
    forall x | x in SlotSet(chain) ensures x in chain + [s] {
    }
  }

  /** Number of index slots for n ids. */
  function ChainLength(n: nat): nat {
    (n + MAX_INDEX_SLOTS - 1) / MAX_INDEX_SLOTS
  }

  /** Every slot of `old` still holds its node in `new`. */
  ghost predicate Extends(new_: Nodes, old_: Nodes) {
    forall s :: s in old_ ==> s in new_ && new_[s] == old_[s]
  }

  /** The chain holds these ids, in new slots added to what was there, each within the block limit. */
  ghost predicate ChainAdded(was: Nodes, now: Nodes, first: Option<nat>, chain: seq<nat>, ids: seq<nat>) {
    && IsChain(now, first, chain) && ChainIds(now, chain) == ids
    && |chain| == ChainLength(|ids|)
    && Extends(now, was) && now.Keys == was.Keys + SlotSet(chain)
    && (forall s :: s in chain ==> s !in was && |now[s].slotIds| <= MAX_INDEX_SLOTS)
  }

  /** One more full-or-first block in front of a chain of whole blocks. */
  lemma BlockAdded(was: Nodes, now: Nodes, now': Nodes, first: Option<nat>, chain: seq<nat>, ids: seq<nat>, slot: nat,
                   block: seq<nat>)
    requires ChainAdded(was, now, first, chain, ids) && |ids| % MAX_INDEX_SLOTS == 0
    requires slot !in now && now' == now[slot := FileIndex(block, first)]
    requires 0 < |block| <= MAX_INDEX_SLOTS
    ensures ChainAdded(was, now', Some(slot), [slot] + chain, block + ids) && Extends(now', was)
  {
    ChainCons(now, now', first, chain, slot, block);
    assert SlotSet([slot] + chain) == {slot} + SlotSet(chain);
  }

  lemma AddedParts(was: Nodes, now: Nodes, first: Option<nat>, chain: seq<nat>, ids: seq<nat>)
    requires ChainAdded(was, now, first, chain, ids)
    ensures Extends(now, was) && now.Keys == was.Keys + SlotSet(chain) && AllIndexes(now, chain)
  {
  }

  /** Where the last block of these ids starts. */
  function LastBlock(n: nat): (lo: nat)
    ensures lo <= n && (n > 0 ==> lo < n)
  {
    if n < MAX_INDEX_SLOTS then 0 else n - MAX_INDEX_SLOTS
  }

  /** Whether the ids can be written as a chain, last block first: every block has a slot, the least free, and fits. */
  ghost predicate ChainFits(c: VnmContainer, ids: seq<nat>, free: seq<nat>, next: Option<nat>)
    decreases |ids|
  {
    ids == [] || (
      && free != [] && c.Fits(FileIndex(ids[LastBlock(|ids|)..], next))
      && ChainFits(c, ids[..LastBlock(|ids|)], free[..|free| - 1], Some(free[|free| - 1])))
  }

  /** Every index block that can occur on this volume fits a slot. */
  ghost predicate BlocksFit(c: VnmContainer) {
    forall block: seq<nat>, next: Option<nat> ::
      |block| <= MAX_INDEX_SLOTS && (forall s :: s in block ==> c.store.vol.IsDataSlot(s))
      && (next.Some? ==> c.store.vol.IsDataSlot(next.value)) ==>
        c.Fits(FileIndex(block, next))
  }

  /** A chain that can be written has a slot for each block; if blocks fit, that is all it needs. */
  lemma {:induction false} ChainFitsWhen(c: VnmContainer, ids: seq<nat>, free: seq<nat>, next: Option<nat>)
    requires forall s :: s in ids || s in free ==> c.store.vol.IsDataSlot(s)
    requires next.Some? ==> c.store.vol.IsDataSlot(next.value)
    ensures ChainFits(c, ids, free, next) ==> ChainLength(|ids|) <= |free|
    ensures BlocksFit(c) ==> (ChainFits(c, ids, free, next) <==> ChainLength(|ids|) <= |free|)
    decreases |ids|
  {
    hide VnmContainer.Fits;
    hide SlotStore.Volume.IsDataSlot;
    if ids != [] && free != [] {
      ChainFitsWhen(c, ids[..LastBlock(|ids|)], free[..|free| - 1], Some(free[|free| - 1]));
      assert forall s :: s in ids[LastBlock(|ids|)..] ==> s in ids;
    }
  }

  /** Every disk state recorded since `from` has all of these nodes. */
  ghost predicate AllExtend(history: seq<Nodes>, from: nat, nodes: Nodes) {
    forall k :: from <= k < |history| ==> Extends(history[k], nodes)
  }

  lemma WholeIds(ids: seq<nat>)
    ensures ids[|ids|..] == [] && ids[..|ids|] == ids && ids[..0] == [] && ids[0..] == ids
  {
  }

  lemma TwoSlices(ids: seq<nat>, lo: nat, hi: nat)
    requires lo <= hi <= |ids|
    ensures ids[lo..hi] + ids[hi..] == ids[lo..]
  {
  }

  lemma OneMoreExtends(history: seq<Nodes>, from: nat, nodes: Nodes, nodes': Nodes, slot: nat, nodes0: Nodes)
    requires AllExtend(history, from, nodes0) && Extends(nodes, nodes0) && slot !in nodes
    requires nodes'.Keys == nodes.Keys + {slot} && forall s :: s in nodes ==> nodes'[s] == nodes[s]
    ensures AllExtend(history + [nodes'], from, nodes0)
  {
  }

  /** The blocks of the chain, the first one last, have taken the least slots of a descending list. */
  ghost predicate Popped(free0: seq<nat>, free: seq<nat>, chain: seq<nat>, next: Option<nat>) {
    && |chain| <= |free0| && free == free0[..|free0| - |chain|]
    && next == if chain == [] then None else Some(free0[|free0| - |chain|])
  }

  lemma PoppedOne(free0: seq<nat>, free: seq<nat>, chain: seq<nat>, next: Option<nat>)
    requires Popped(free0, free, chain, next) && free != []
    ensures Popped(free0, free[..|free| - 1], [free[|free| - 1]] + chain, Some(free[|free| - 1]))
  {
  }

  /** A chain under construction: what it holds, which slots it took, and what every disk state since still has. */
  ghost predicate Building(nodes0: Nodes, from: nat, free0: seq<nat>, nodes: Nodes, history: seq<Nodes>, free: seq<nat>,
                           next: Option<nat>, chain: seq<nat>, ids: seq<nat>) {
    ChainAdded(nodes0, nodes, next, chain, ids) && AllExtend(history, from, nodes0) && Popped(free0, free, chain, next)
  }

  lemma NothingBuilt(nodes: Nodes, history: seq<Nodes>, free: seq<nat>)
    ensures Building(nodes, |history|, free, nodes, history, free, None, [], [])
  {
  }

  lemma BuiltParts(nodes0: Nodes, from: nat, free0: seq<nat>, nodes: Nodes, history: seq<Nodes>, free: seq<nat>,
                   next: Option<nat>, chain: seq<nat>, ids: seq<nat>)
    requires Building(nodes0, from, free0, nodes, history, free, next, chain, ids)
    ensures ChainAdded(nodes0, nodes, next, chain, ids) && AllExtend(history, from, nodes0) && Extends(nodes, nodes0)
    ensures nodes.Keys == nodes0.Keys + SlotSet(chain) && AllIndexes(nodes, chain)
    ensures |chain| <= |free0| && free == free0[..|free0| - |chain|]
    ensures next == if chain == [] then None else Some(free0[|free0| - |chain|])
    ensures (if free == [] then [] else free[..|free| - 1]) == free0[..Max(|free0|, |chain| + 1) - |chain| - 1]
  {
    hide Walk;
    hide SlotSet;
  }

  /**
   The old chain is back in the free list `list` and n ids are to go into a new one: it has taken its slots off
   the end, or could not be written and the old one is still the one pointed at.
   */
  ghost predicate ChainTook(list: seq<nat>, lost: set<nat>, n: nat, chain: seq<nat>, free': seq<nat>, lost': set<nat>,
                            chain': seq<nat>, ok: bool) {
    && TakenOff(list, lost, free', lost', ok)
    && ((|chain'| == ChainLength(n) && |free'| + |chain'| == |list| && lost' == lost)
        || (!ok && n > 0 && chain' == chain))
  }

  lemma NoChain(list: seq<nat>, lost: set<nat>, chain: seq<nat>)
    ensures ChainTook(list, lost, 0, chain, list, lost, [], true)
  {
  }

  lemma ChainTaken(list: seq<nat>, lost: set<nat>, n: nat, chain: seq<nat>, free': seq<nat>, lost': set<nat>,
                   chain': seq<nat>, ok: bool)
    requires TakenOff(list, lost, free', lost', ok)
    requires if ok then |chain'| == ChainLength(n) && |free'| + |chain'| == |list| && lost' == lost else n > 0
    ensures ChainTook(list, lost, n, chain, free', lost', if ok then chain' else chain, ok)
  {
    hide TakenOff;
  }

  /** The chain is in place, but the head that would point at it is not. */
  lemma ChainTookAnyway(list: seq<nat>, lost: set<nat>, n: nat, chain: seq<nat>, free': seq<nat>, lost': set<nat>,
                        chain': seq<nat>, ok: bool)
    requires ChainTook(list, lost, n, chain, free', lost', chain', true)
    ensures ChainTook(list, lost, n, chain, free', lost', chain', ok)
  {
  }

  /** Write the ids from lo to hi into a block in front of the chain. */
  method WriteBlock(c: VnmContainer, ids: seq<nat>, lo: nat, hi: nat, next: Option<nat>, ghost nodes0: Nodes,
                    ghost from: nat, ghost free0: seq<nat>, ghost chain: seq<nat>)
    returns (w: Result<nat, VnmError>)
    requires c.Valid() && 0 < hi <= |ids| && lo == LastBlock(hi) && (|ids| - hi) % MAX_INDEX_SLOTS == 0
    requires Building(nodes0, from, free0, c.nodes, c.history, c.store.free, next, chain, ids[hi..])
    modifies c, c.store
    ensures c.Valid() && old(c.history) <= c.history
    ensures w.Ok? <==> old(c.store.free) != [] && c.Fits(FileIndex(ids[lo..hi], next))
    ensures w.Ok? ==>
              && Building(nodes0, from, free0, c.nodes, c.history, c.store.free, Some(w.value), [w.value] + chain,
                          ids[lo..])
              && c.store.free == old(c.store.free)[..|old(c.store.free)| - 1]
              && w.value == old(c.store.free)[|old(c.store.free)| - 1] && c.lost == old(c.lost)
    ensures w.Err? ==>
              && c.nodes == old(c.nodes) && c.history == old(c.history)
              && c.store.free == (if old(c.store.free) == [] then [] else old(c.store.free)[..|old(c.store.free)| - 1])
              && (c.lost == old(c.lost) ==> c.store.free == [])
    ensures TakenOff(old(c.store.free), old(c.lost), c.store.free, c.lost, w.Ok?)
  {
    hide TakenOff;
    hide VnmContainer.Valid;
    hide ChainAdded;
    hide AllIndexes;
    hide SlotSet;
    hide Popped;
    hide Extends;
    hide AllExtend;
    hide VnmContainer.Free;
    hide VnmContainer.Fits;
    ghost var before, history, list := c.nodes, c.history, c.store.free;
    AddedParts(nodes0, before, next, chain, ids[hi..]);
    w := c.WriteNode(FileIndex(ids[lo..hi], next));
    if w.Err? { return; }
    PoppedOne(free0, list, chain, next);
    OneMoreExtends(history, from, before, c.nodes, w.value, nodes0);
    BlockAdded(nodes0, before, c.nodes, next, chain, ids[hi..], w.value, ids[lo..hi]);
    TwoSlices(ids, lo, hi);
  }

  /** Write the ids as a chain of index slots, last block first. */
  method WriteIndexChain(c: VnmContainer, ids: seq<nat>) returns (r: Result<Option<nat>, Errno>, ghost chain: seq<nat>)
    requires c.Valid()
    modifies c, c.store
    ensures c.Valid() && Extends(c.nodes, old(c.nodes))
    ensures old(c.history) <= c.history
    ensures AllExtend(c.history, |old(c.history)|, old(c.nodes))
    ensures r.Ok? <==> ChainFits(c, ids, old(c.store.free), None)
    ensures r.Ok? ==> ChainAdded(old(c.nodes), c.nodes, r.value, chain, ids) && c.lost == old(c.lost)
    ensures r.Ok? ==>
              && |chain| <= |old(c.store.free)| && c.store.free == old(c.store.free)[..|old(c.store.free)| - |chain|]
              && r.value == if chain == [] then None else Some(old(c.store.free)[|old(c.store.free)| - |chain|])
    ensures r.Err? ==>
              && r.error == EIO
              && c.store.free == old(c.store.free)[..Max(|old(c.store.free)|, |chain| + 1) - |chain| - 1]
              && c.nodes.Keys == old(c.nodes).Keys + SlotSet(chain) && AllIndexes(c.nodes, chain)
              && (c.lost == old(c.lost) ==> c.store.free == [])
    ensures TakenOff(old(c.store.free), old(c.lost), c.store.free, c.lost, r.Ok?)
  {
    hide TakenOff;
    hide VnmContainer.Valid;
    hide Building;
    hide ChainAdded;
    hide AllIndexes;
    hide SlotSet;
    hide ChainFits;
    hide Popped;
    hide Extends;
    hide AllExtend;
    hide VnmContainer.Free;
    hide VnmContainer.Fits;
    chain := [];
    NothingBuilt(c.nodes, c.history, c.store.free);
    NothingTaken(c.store.free, c.lost);
    NoBlocks(c, c.store.free, None);
    if ids == [] {
      BuiltParts(c.nodes, |c.history|, c.store.free, c.nodes, c.history, c.store.free, None, [], []);
      return Ok(None), [];
    }
    var next: Option<nat> := None;
    var hi := |ids|;
    WholeIds(ids);
    ghost var nodes, from, free := c.nodes, |c.history|, c.store.free;
    while hi > 0
      invariant 0 <= hi <= |ids|
      invariant c.Valid() && c.lost == old(c.lost) && old(c.history) <= c.history
      invariant TakenOff(old(c.store.free), old(c.lost), c.store.free, c.lost, true)
      invariant Building(nodes, from, free, c.nodes, c.history, c.store.free, next, chain, ids[hi..])
      invariant hi > 0 ==> (|ids| - hi) % MAX_INDEX_SLOTS == 0
      invariant ChainFits(c, ids, free, None) <==> ChainFits(c, ids[..hi], c.store.free, next)
    {
      var lo := if hi < MAX_INDEX_SLOTS then 0 else hi - MAX_INDEX_SLOTS;
      OneBlock(c, ids, lo, hi, c.store.free, next);
      BuiltParts(nodes, from, free, c.nodes, c.history, c.store.free, next, chain, ids[hi..]);
      ghost var list := c.store.free;
      var w := WriteBlock(c, ids, lo, hi, next, nodes, from, free, chain);
      TakenOn(free, old(c.lost), list, old(c.lost), c.store.free, c.lost, w.Ok?);
      if w.Err? { return Err(EIO), chain; }
      next := Some(w.value);
      chain := [w.value] + chain;
      hi := lo;
    }
    NoBlocks(c, c.store.free, next);
    BuiltParts(nodes, from, free, c.nodes, c.history, c.store.free, next, chain, ids);
    r := Ok(next);
  }

  lemma NoBlocks(c: VnmContainer, free: seq<nat>, next: Option<nat>)
    ensures ChainFits(c, [], free, next)
  {
  }

  lemma OneBlock(c: VnmContainer, ids: seq<nat>, lo: nat, hi: nat, free: seq<nat>, next: Option<nat>)
    requires 0 < hi <= |ids| && lo == LastBlock(hi)
    ensures ChainFits(c, ids[..hi], free, next) <==>
              free != [] && c.Fits(FileIndex(ids[lo..hi], next))
              && ChainFits(c, ids[..lo], free[..|free| - 1], Some(free[|free| - 1]))
  {
    assert ids[..hi][lo..] == ids[lo..hi] && ids[..hi][..lo] == ids[..lo];
  }

  /** The free list after these slots are freed one by one. */
  function FreedAll(free: seq<nat>, chain: seq<nat>): (r: seq<nat>)
    ensures |r| == |free| + |chain|
    decreases |chain|
  {
    if chain == [] then free else FreedAll(FreeList.Insert(free, chain[0]), chain[1..])
  }

  lemma {:induction false} FreedElements(free: seq<nat>, chain: seq<nat>)
    ensures forall s :: s in FreedAll(free, chain) <==> s in free || s in chain
    decreases |chain|
  {
    if chain != [] {
      var once := FreeList.Insert(free, chain[0]);
      FreeList.InsertElements(free, chain[0]);
      assert forall s :: s in once <==> s in FreeList.Elements(once);
      assert forall s :: s in free <==> s in FreeList.Elements(free);
      FreedElements(once, chain[1..]);
      assert chain == [chain[0]] + chain[1..];
    }
  }

  lemma {:induction false} FreedAppend(free: seq<nat>, chain: seq<nat>, slot: nat)
    ensures FreedAll(free, chain + [slot]) == FreeList.Insert(FreedAll(free, chain), slot)
    decreases |chain|
  {
    if chain == [] {
      assert [slot][1..] == [];
    } else {
      FreedAppend(FreeList.Insert(free, chain[0]), chain[1..], slot);
      assert (chain + [slot])[1..] == chain[1..] + [slot];
    }
  }

  /** Free every slot of the chain. */
  method FreeIndexChain(c: VnmContainer, first: Option<nat>, ghost chain: seq<nat>)
    requires c.Valid() && Walk(c.nodes, first, chain)
    modifies c, c.store
    ensures c.Valid() && c.nodes == old(c.nodes) - SlotSet(chain)
    ensures c.Free() == old(c.Free()) + SlotSet(chain) && c.lost == old(c.lost)
    ensures c.store.free == FreedAll(old(c.store.free), chain)
    ensures chain == [] ==> c.history == old(c.history)
    ensures old(c.history) <= c.history
  {
    hide VnmContainer.Valid;
    hide VnmContainer.Free;
    hide Walk;
    hide SlotSet;
    hide FreedAll;
    var cur := first;
    ghost var rest := chain;
    ghost var done: set<nat> := {};
    while cur.Some?
      invariant c.Valid() && Walk(c.nodes, cur, rest)
      invariant done + SlotSet(rest) == SlotSet(chain) && done !! SlotSet(rest)
      invariant c.nodes == old(c.nodes) - done
      invariant c.Free() == old(c.Free()) + done && c.lost == old(c.lost)
      invariant FreedAll(c.store.free, rest) == FreedAll(old(c.store.free), chain)
      invariant chain == [] ==> c.history == old(c.history)
      invariant old(c.history) <= c.history
      decreases |rest|
    {
      var slot := cur.value;
      WalkStep(c.nodes, slot, rest, c.store.free);
      var node := c.ReadNode(slot);
      ghost var before := c.nodes;
      if node.Ok? && node.value.FileIndex? {
        c.FreeNode(slot);
        cur := node.value.nextIndex;
      } else {
        c.FreeNode(slot);
        cur := None;
      }
      done := done + {slot};
      rest := rest[1..];
    }
    WalkEnds(c.nodes, rest, c.store.free);
  }

  /** Freeing the first slot of a chain leaves the rest as a chain. */
  lemma WalkStep(nodes: Nodes, slot: nat, chain: seq<nat>, free: seq<nat>)
    requires Walk(nodes, Some(slot), chain)
    ensures chain != [] && slot in nodes && SlotSet(chain) == {slot} + SlotSet(chain[1..])
    ensures slot !in SlotSet(chain[1..])
    ensures Walk(nodes - {slot}, if nodes[slot].FileIndex? then nodes[slot].nextIndex else None, chain[1..])
    ensures FreedAll(free, chain) == FreedAll(FreeList.Insert(free, slot), chain[1..])
  {
    assert chain == [slot] + chain[1..];
    if nodes[slot].FileIndex? {
      var next := nodes[slot].nextIndex;
      WalkInside(nodes, next, chain[1..]);
      WalkFrame(nodes, nodes - {slot}, next, chain[1..]);
    }
  }

  lemma WalkEnds(nodes: Nodes, chain: seq<nat>, free: seq<nat>)
    requires Walk(nodes, None, chain)
    ensures SlotSet(chain) == {} && FreedAll(free, chain) == free
  {
  }

  lemma {:induction false} WalkInside(nodes: Nodes, first: Option<nat>, chain: seq<nat>)
    requires Walk(nodes, first, chain)
    ensures forall s :: s in chain ==> s in nodes
    decreases |chain|
  {
    if first.Some? && nodes[first.value].FileIndex? {
      WalkInside(nodes, nodes[first.value].nextIndex, chain[1..]);
    }
  }

  // ── Building the slot map ─────────────────────────────────────────────────

  /** Read the head and follow its index chain. */
  method BuildSlotMap(c: VnmContainer, head: nat, ghost chain: seq<nat>)
    returns (r: Result<(nat, Option<nat>, seq<Option<nat>>), Errno>)
    requires c.Valid() && head in c.nodes
    requires c.nodes[head].File? ==> Walk(c.nodes, c.nodes[head].indexChain, chain)
    ensures !c.nodes[head].File? ==> r == Err(EISDIR)
    ensures c.nodes[head].File? && !AllIndexes(c.nodes, chain) ==> r == Err(EIO)
    ensures c.nodes[head].File? && AllIndexes(c.nodes, chain) ==>
              var fb := c.nodes[head];
              r == Ok((fb.totalSize, fb.indexChain, SlotMapOf(fb.dataSlots + ChainIds(c.nodes, chain))))
  {
    hide VnmContainer.Valid;
    var node := c.ReadNode(head);
    if !node.value.File? { return Err(EISDIR); }
    var fb := node.value;
    var slotMap: seq<Option<nat>> := [None];
    for i := 0 to |fb.dataSlots|
      invariant slotMap == SlotMapOf(fb.dataSlots[..i])
    {
      slotMap := slotMap + [Some(fb.dataSlots[i])];
    }
    assert fb.dataSlots[..|fb.dataSlots|] == fb.dataSlots;
    ghost var ids := fb.dataSlots;
    var next := fb.indexChain;
    ghost var rest := chain;
    while next.Some?
      invariant Walk(c.nodes, next, rest)
      invariant slotMap == SlotMapOf(ids)
      invariant ids + ChainIds(c.nodes, rest) == fb.dataSlots + ChainIds(c.nodes, chain)
      invariant AllIndexes(c.nodes, rest) <==> AllIndexes(c.nodes, chain)
      decreases |rest|
    {
      var idx := c.ReadNode(next.value);
      assert rest[0] == next.value;
      if idx.Err? || !idx.value.FileIndex? { return Err(EIO); }
      var fi := idx.value;
      for i := 0 to |fi.slotIds|
        invariant slotMap == SlotMapOf(ids + fi.slotIds[..i])
      {
        slotMap := slotMap + [Some(fi.slotIds[i])];
      }
      assert fi.slotIds[..|fi.slotIds|] == fi.slotIds;
      assert ChainIds(c.nodes, rest) == fi.slotIds + ChainIds(c.nodes, rest[1..]);
      assert (ids + fi.slotIds) + ChainIds(c.nodes, rest[1..]) == ids + ChainIds(c.nodes, rest);
      ids := ids + fi.slotIds;
      next := fi.nextIndex;
      rest := rest[1..];
    }
    assert ids + ChainIds(c.nodes, rest) == ids;
    r := Ok((fb.totalSize, fb.indexChain, slotMap));
  }
}
