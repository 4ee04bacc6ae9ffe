/**
 Node I/O and flush of vnmcore/src/fs/container.rs over the slot store: the encrypted file behaves
 as a map from slot to node. `lost` collects slots that were popped for a node that did not fit.
 */
module Container {
  import opened Wrappers
  import opened Bytes
  import opened Cipher
  import opened Layout
  import opened Merkle
  import opened VaultFs
  import opened SlotStore
  import FreeList

  /** The node stored in a slot, if the slot reads and parses. */
  function NodeAt(v: Volume, codec: Codec, file: seq<byte>, slot: nat): Option<Node> {
    var plain := ReadSlot(v, file, slot);
    if plain.Ok? then codec.decode(plain.value) else None
  }

  /** Nodes, free slots and lost slots cover the data slots without overlap, and every node is on disk. */
  ghost predicate Holds(v: Volume, codec: Codec, file: seq<byte>, nodes: map<nat, Node>, free: set<nat>,
                        lost: set<nat>) {
    && (forall s :: s in nodes ==> s !in free && s !in lost && NodeAt(v, codec, file, s) == Some(nodes[s]))
    && (forall s :: s in lost ==> s !in free)
    && (forall s :: v.IsDataSlot(s) <==> s in nodes || s in free || s in lost)
  }

  /** Changing one slot keeps every other node where it was. */
  lemma NodesElsewhere(v: Volume, codec: Codec, f: seq<byte>, f': seq<byte>, slot: nat, s: nat)
    requires OnlySlotChanged(f, f', slot) && s != slot && NodeAt(v, codec, f, s).Some?
    ensures NodeAt(v, codec, f', s) == NodeAt(v, codec, f, s)
  {
    assert RawSlot(f, s).Some?;
  }

  /** Rewriting a node in place. */
  lemma HoldsUpdate(v: Volume, codec: Codec, f: seq<byte>, f': seq<byte>, nodes: map<nat, Node>, free: set<nat>,
                    lost: set<nat>, slot: nat, n: Node)
    requires Holds(v, codec, f, nodes, free, lost) && OnlySlotChanged(f, f', slot)
    requires slot in nodes && NodeAt(v, codec, f', slot) == Some(n)
    ensures Holds(v, codec, f', nodes[slot := n], free, lost)
  {
    forall t | t in nodes && t != slot ensures NodeAt(v, codec, f', t) == Some(nodes[t]) {
      NodesElsewhere(v, codec, f, f', slot, t);
    }
  }

  /** Writing a node into a slot that was free. */
  lemma HoldsAlloc(v: Volume, codec: Codec, f: seq<byte>, f': seq<byte>, nodes: map<nat, Node>, free: set<nat>,
                   lost: set<nat>, slot: nat, n: Node)
    requires Holds(v, codec, f, nodes, free, lost) && OnlySlotChanged(f, f', slot)
    requires slot in free && NodeAt(v, codec, f', slot) == Some(n)
    ensures Holds(v, codec, f', nodes[slot := n], free - {slot}, lost) && slot !in nodes
  {
    forall t | t in nodes ensures NodeAt(v, codec, f', t) == Some(nodes[t]) {
      NodesElsewhere(v, codec, f, f', slot, t);
    }
  }

  /** Losing a slot that was free. */
  lemma HoldsLose(v: Volume, codec: Codec, f: seq<byte>, nodes: map<nat, Node>, free: set<nat>, lost: set<nat>,
                  slot: nat)
    requires Holds(v, codec, f, nodes, free, lost) && slot in free
    ensures Holds(v, codec, f, nodes, free - {slot}, lost + {slot}) && slot !in lost
  {
  }

  /** Wiping a node's slot back onto the free list. */
  lemma HoldsFree(v: Volume, codec: Codec, f: seq<byte>, f': seq<byte>, nodes: map<nat, Node>, free: set<nat>,
                  lost: set<nat>, slot: nat)
    requires Holds(v, codec, f, nodes, free, lost) && OnlySlotChanged(f, f', slot)
    requires slot in nodes
    ensures Holds(v, codec, f', nodes - {slot}, free + {slot}, lost)
  {
    forall t | t in nodes && t != slot ensures NodeAt(v, codec, f', t) == Some(nodes[t]) {
      NodesElsewhere(v, codec, f, f', slot, t);
    }
  }

  /** Rewriting the allocation slot. */
  lemma HoldsSave(v: Volume, codec: Codec, f: seq<byte>, f': seq<byte>, nodes: map<nat, Node>, free: set<nat>,
                  lost: set<nat>)
    requires Holds(v, codec, f, nodes, free, lost) && OnlySlotChanged(f, f', v.allocSlot)
    ensures Holds(v, codec, f', nodes, free, lost)
  {
    forall t | t in nodes ensures NodeAt(v, codec, f', t) == Some(nodes[t]) {
      assert v.IsDataSlot(t);
      NodesElsewhere(v, codec, f, f', v.allocSlot, t);
    }
  }

  /** Every free slot that has held a node since the mount holds only random bytes. */
  ghost predicate Scrubbed(v: Volume, file: seq<byte>, free: set<nat>, history: seq<map<nat, Node>>) {
    forall s, i :: 0 <= i < |history| && s in history[i] && s in free ==> HoldsCoins(v, file, s)
  }

  /** One slot changes; it is not free afterwards, or it is wiped. */
  lemma ScrubbedStays(v: Volume, f: seq<byte>, f': seq<byte>, slot: nat, free: set<nat>, free': set<nat>,
                      history: seq<map<nat, Node>>, nodes': map<nat, Node>)
    requires Scrubbed(v, f, free, history) && OnlySlotChanged(f, f', slot)
    requires forall s :: s in free' ==> (s in free && s != slot) || HoldsCoins(v, f', s)
    requires forall s :: s in nodes' ==> s !in free'
    ensures Scrubbed(v, f', free', history) && Scrubbed(v, f', free', history + [nodes'])
  {
    var history' := history + [nodes'];
    forall s, i | 0 <= i < |history'| && s in history'[i] && s in free' ensures HoldsCoins(v, f', s) {
      if s in free && s != slot {
        assert s in history[i];
        assert HoldsCoins(v, f, s);
        var at :| RawSlot(f, s) == Some(v.suite.Coins(at, SLOT_SIZE));
        assert RawSlot(f', s) == Some(v.suite.Coins(at, SLOT_SIZE));
      }
    }
    forall s, i | 0 <= i < |history| && s in history[i] && s in free' ensures HoldsCoins(v, f', s) {
      assert s in history'[i];
    }
  }

  /** Nothing is freed. */
  lemma FewerScrubbed(v: Volume, f: seq<byte>, free: set<nat>, free': set<nat>, history: seq<map<nat, Node>>)
    requires Scrubbed(v, f, free, history) && free' <= free
    ensures Scrubbed(v, f, free', history)
  {
  }

  /** Nodes, free slots and the allocation slot are different slots. */
  lemma HoldsApart(v: Volume, codec: Codec, file: seq<byte>, nodes: map<nat, Node>, free: set<nat>, lost: set<nat>)
    requires Holds(v, codec, file, nodes, free, lost)
    ensures forall s :: s in nodes ==> s !in free
    ensures v.allocSlot !in free
  {
    hide NodeAt;
  }

  /** Which slots hold nodes determines the free list. */
  lemma FreeListDetermined(v: Volume, codec: Codec, f1: seq<byte>, nodes1: map<nat, Node>, free1: seq<nat>,
                           f2: seq<byte>, nodes2: map<nat, Node>, free2: seq<nat>, lost: set<nat>)
    requires FreeOk(v, free1) && Holds(v, codec, f1, nodes1, FreeList.Elements(free1), lost)
    requires FreeOk(v, free2) && Holds(v, codec, f2, nodes2, FreeList.Elements(free2), lost)
    requires nodes1.Keys == nodes2.Keys
    ensures free1 == free2
  {
    hide NodeAt;
    assert forall x :: x in free1 <==> x in FreeList.Elements(free1);
    assert forall x :: x in free2 <==> x in FreeList.Elements(free2);
    forall x ensures x in free1 <==> x in free2 {
      assert x in nodes1.Keys <==> x in nodes2.Keys;
    }
    FreeList.DescendingUnique(free1, free2);
  }

  /** The allocation slot on disk is as some flush saved it. */
  ghost predicate AllocIntact(v: Volume, file: seq<byte>, free: seq<nat>, generation: nat, root: seq<byte>) {
    && v.Valid() && SlotOffset(v.slotLimit) <= |file| && FreeOk(v, free)
    && generation < U64 && |root| == 32
    && (!v.hasGeneration ==> generation == 0 && root == ZERO_ROOT)
    && Saved(v, file, free, generation, root)
  }

  /** A flushed container on disk: what the next open must find. */
  ghost predicate Persisted(v: Volume, codec: Codec, file: seq<byte>, nodes: map<nat, Node>, free: seq<nat>,
                            generation: nat, root: seq<byte>)
  {
    && AllocIntact(v, file, free, generation, root) && Lawful(codec)
    && Holds(v, codec, file, nodes, FreeList.Elements(free), {})
    && RootCurrent(v, file, free, root)
  }

  /**
   Slots were only taken off the end of the free list, where the least ones are; a step that fails may lose
   the last one that it took.
   */
  ghost predicate TakenOff(free: seq<nat>, lost: set<nat>, free': seq<nat>, lost': set<nat>, ok: bool) {
    free' <= free && (lost' == lost || (!ok && exists s :: s in free && s !in free' && lost' == lost + {s}))
  }

  lemma NothingTaken(free: seq<nat>, lost: set<nat>)
    ensures TakenOff(free, lost, free, lost, true)
  {
  }

  lemma TakenOn(free: seq<nat>, lost: set<nat>, free': seq<nat>, lost': set<nat>, free'': seq<nat>, lost'': set<nat>,
                ok: bool)
    requires TakenOff(free, lost, free', lost', true) && TakenOff(free', lost', free'', lost'', ok)
    ensures TakenOff(free, lost, free'', lost'', ok) && lost' == lost && (ok ==> lost'' == lost)
  {
  }

  class VnmContainer {
    const store: Store
    const codec: Codec
    ghost var nodes: map<nat, Node>
    ghost var lost: set<nat>
    /** Every state of the disk so far, one entry per slot written or wiped. */
    ghost var history: seq<map<nat, Node>>

    ghost predicate Valid()
      reads this, store
    {
      && store.Valid() && Lawful(codec)
      && Holds(store.vol, codec, store.file, nodes, Free(), lost)
      && (lost == {} ==> store.RootFresh())
      && history != [] && history[|history| - 1] == nodes && Scrubbed(store.vol, store.file, Free(), history)
    }

    /** Every slot of these nodes that is free now holds only random bytes. */
    ghost predicate Wiped(before: map<nat, Node>)
      reads this, store
    {
      forall s :: s in before && s in Free() ==> HoldsCoins(store.vol, store.file, s)
    }

    /** The disk has gone from these nodes to the present ones. */
    ghost predicate Since(before: map<nat, Node>, past: seq<map<nat, Node>>)
      reads this
    {
      past != [] && past[|past| - 1] == before && past <= history
    }

    /** Whatever has happened since, a slot that was freed is wiped. */
    lemma FreedIsWiped(before: map<nat, Node>, past: seq<map<nat, Node>>)
      requires Valid() && Since(before, past)
      ensures Wiped(before)
    {
      hide NodeAt;
      hide HoldsCoins;
      assert history[|past| - 1] == before;
    }

    lemma NothingFreed()
      requires Valid()
      ensures Wiped(nodes)
    {
      FreedIsWiped(nodes, history);
    }

    lemma LatestIsNow()
      requires Valid()
      ensures history != [] && history[|history| - 1] == nodes
    {
    }

    ghost function Free(): set<nat>
      reads this, store
    {
      FreeList.Elements(store.free)
    }

    lemma StoreIsValid()
      requires Valid()
      ensures store.Valid() && Lawful(codec) && (lost == {} ==> store.RootFresh())
    {
    }

    /** Nodes and free slots lie in the data slots of the volume. */
    lemma InVolume()
      requires Valid()
      ensures forall s :: s in nodes || s in store.free ==> store.vol.IsDataSlot(s)
    {
      hide NodeAt;
      assert forall s :: s in store.free ==> s in Free();
    }

    predicate Fits(n: Node) {
      store.vol.Fits(|codec.encode(n)|)
    }

    constructor (store: Store, codec: Codec, ghost nodes: map<nat, Node>)
      ensures this.store == store && this.codec == codec && this.nodes == nodes && lost == {}
      ensures (&& store.Valid() && Lawful(codec) && store.RootFresh()
               && Holds(store.vol, codec, store.file, nodes, FreeList.Elements(store.free), {}))
              ==> Valid()
    {
      this.store := store;
      this.codec := codec;
      this.nodes := nodes;
      lost := {};
      history := [nodes];
    }

    method ReadNode(slot: nat) returns (r: Result<Node, VnmError>)
      requires Valid()
      ensures slot in nodes ==> r == Ok(nodes[slot])
    {
      var data := store.Read(slot);
      if data.Err? { return Err(data.error); }
      var n := codec.decode(data.value);
      r := if n.Some? then Ok(n.value) else Err(BadNode);
    }

    /** Allocate the least free slot and write the node; a node that does not fit loses the slot. */
    method WriteNode(node: Node) returns (r: Result<nat, VnmError>)
      requires Valid()
      modifies this, store
      ensures Valid()
      ensures r.Ok? <==> old(Free()) != {} && Fits(node)
      ensures r.Ok? <==> old(store.free) != [] && Fits(node)
      ensures r.Ok? ==>
                && store.free == old(store.free)[..|old(store.free)| - 1]
                && r.value == old(store.free)[|old(store.free)| - 1]
      ensures r.Ok? ==>
                && r.value in old(Free()) && (forall x :: x in old(Free()) ==> r.value <= x)
                && r.value !in old(nodes) && nodes == old(nodes)[r.value := node]
                && Free() == old(Free()) - {r.value} && FreeList.Insert(store.free, r.value) == old(store.free)
                && lost == old(lost)
                && history == old(history) + [nodes]
      ensures r.Err? ==> nodes == old(nodes) && history == old(history)
      ensures r.Err? ==>
                && store.file == old(store.file) && store.cachedRoot == old(store.cachedRoot)
                && store.merkleDirty == old(store.merkleDirty) && store.generation == old(store.generation)
      ensures r.Err? && old(Free()) == {} ==>
                r.error == NoSpaceLeft && store.free == old(store.free) && lost == old(lost)
      ensures r.Err? && old(Free()) != {} ==>
                exists s :: s in old(Free()) && s !in old(lost)
                            && Free() == old(Free()) - {s} && lost == old(lost) + {s}
      ensures r.Err? ==> store.free == if old(store.free) == [] then [] else old(store.free)[..|old(store.free)| - 1]
      ensures r.Err? ==> (lost == old(lost) <==> old(store.free) == [])
      ensures TakenOff(old(store.free), old(lost), store.free, lost, r.Ok?)
    {
      hide FreeOk;
      hide ReadSlot;
      hide Holds;
      hide Scrubbed;
      hide HoldsCoins;
      hide RawSlot;
      hide TextImage;
      hide OnlySlotChanged;
      ghost var before := store.file;
      assert store.free != [] ==> store.free[0] in Free();
      assert forall x :: x in store.free <==> x in Free();
      var slot := store.Alloc();
      if slot.Err? { return Err(slot.error); }
      var s := slot.value;
      var payload := codec.encode(node);
      var w := store.Write(s, payload);
      if w.Err? {
        HoldsLose(store.vol, codec, before, nodes, old(Free()), lost, s);
        FewerScrubbed(store.vol, before, old(Free()), Free(), history);
        lost := lost + {s};
        return Err(w.error);
      }
      HoldsAlloc(store.vol, codec, before, store.file, nodes, old(Free()), lost, s, node);
      nodes := nodes[s := node];
      HoldsApart(store.vol, codec, store.file, nodes, Free(), lost);
      ScrubbedStays(store.vol, before, store.file, s, old(Free()), Free(), history, nodes);
      history := history + [nodes];
      r := Ok(s);
    }

    /** Rewrite a node in its own slot. */
    method UpdateNode(slot: nat, node: Node) returns (r: Result<(), VnmError>)
      requires Valid() && slot in nodes
      modifies this, store
      ensures Valid() && Free() == old(Free()) && store.free == old(store.free) && lost == old(lost)
      ensures r.Ok? <==> Fits(node)
      ensures r.Ok? ==> nodes == old(nodes)[slot := node] && history == old(history) + [nodes]
      ensures r.Err? ==> nodes == old(nodes) && history == old(history)
    {
      hide ReadSlot;
      hide Holds;
      hide FreeOk;
      hide Scrubbed;
      hide HoldsCoins;
      hide RawSlot;
      hide TextImage;
      hide OnlySlotChanged;
      ghost var before := store.file;
      ghost var free := Free();
      var payload := codec.encode(node);
      r := store.Write(slot, payload);
      assert store.free == old(store.free) && Free() == free;
      if r.Ok? {
        assert NodeAt(store.vol, codec, store.file, slot) == Some(node);
        HoldsUpdate(store.vol, codec, before, store.file, nodes, free, lost, slot, node);
        HoldsApart(store.vol, codec, before, nodes, free, lost);
        nodes := nodes[slot := node];
        ScrubbedStays(store.vol, before, store.file, slot, free, free, history, nodes);
        history := history + [nodes];
      }
    }

    /** Wipe a node's slot with the next random bytes and give it back. */
    method FreeNode(slot: nat)
      requires Valid() && slot in nodes
      modifies this, store
      ensures Valid() && lost == old(lost)
      ensures RawSlot(store.file, slot) == Some(store.vol.suite.Coins(old(store.drawn), SLOT_SIZE))
      ensures store.drawn == old(store.drawn) + SLOT_SIZE
      ensures nodes == old(nodes) - {slot}
      ensures Free() == old(Free()) + {slot}
      ensures store.free == FreeList.Insert(old(store.free), slot)
      ensures history == old(history) + [nodes]
    {
      hide ReadSlot;
      hide Scrubbed;
      hide RawSlot;
      hide NodeAt;
      hide OnlySlotChanged;
      hide FreeList.StrictlyDescending;
      ghost var before := store.file;
      InVolume();
      assert forall x :: x in store.free <==> x in Free();
      store.FreeSlot(slot);
      HoldsFree(store.vol, codec, before, store.file, nodes, old(Free()), lost, slot);
      HoldsApart(store.vol, codec, before, nodes, old(Free()), lost);
      nodes := nodes - {slot};
      assert HoldsCoins(store.vol, store.file, slot);
      ScrubbedStays(store.vol, before, store.file, slot, old(Free()), Free(), history, nodes);
      history := history + [nodes];
    }

    /** Recompute the root if stale, then save the free list under the next generation, with that very root. */
    method Flush() returns (r: Result<(), VnmError>)
      requires store.Valid()
      modifies this, store
      ensures store.Valid() && (old(Valid()) ==> Valid())
      ensures nodes == old(nodes) && store.free == old(store.free) && lost == old(lost)
      ensures OnlySlotChanged(old(store.file), store.file, store.vol.allocSlot)
      ensures if old(store.merkleDirty) then IsRoot(store.vol, store.file, store.free, store.cachedRoot)
              else store.cachedRoot == old(store.cachedRoot)
      ensures r.Ok? ==> store.merkleDirty
      ensures store.drawn == old(store.drawn) + NonceSectionLen(store.vol.cipher)
      ensures store.generation ==
                if store.vol.hasGeneration then (old(store.generation) + 1) % U64 else old(store.generation)
      ensures r.Ok? <==> store.vol.Fits(MinAllocLen(store.vol.hasGeneration) + (store.vol.Count() + 7) / 8)
      ensures r.Ok? ==>
                && AllocIntact(store.vol, store.file, store.free,
                               if store.vol.hasGeneration then store.generation else 0, store.StoredRoot())
                && (old(store.RootFresh()) ==> RootCurrent(store.vol, store.file, store.free, store.StoredRoot()))
      ensures r.Ok? && lost == {} && old(Valid()) ==>
                Persisted(store.vol, codec, store.file, nodes, store.free,
                          if store.vol.hasGeneration then store.generation else 0, store.StoredRoot())
    {
      hide ReadSlot;
      hide NodeAt;
      hide IsRoot;
      hide RawSlot;
      hide Holds;
      hide Scrubbed;
      hide HoldsCoins;
      hide OnlySlotChanged;
      if store.merkleDirty {
        r := store.UpdateMerkleRoot();
      }
      ghost var before := store.file;
      r := store.SaveFreeList();
      if r.Ok? && old(Valid()) {
        HoldsSave(store.vol, codec, before, store.file, nodes, Free(), lost);
        HoldsApart(store.vol, codec, before, nodes, Free(), lost);
        ScrubbedStays(store.vol, before, store.file, store.vol.allocSlot, Free(), Free(), history, nodes);
      }
    }
  }
}
