/**
 Ownership conservation: in every sound state, each slot of the volume belongs to exactly one of the
 allocation block, the free list, the lost slots, a directory, or one file.
 */
module Ownership {
  import opened Wrappers
  import opened VaultFs
  import opened SlotStore
  import opened Container
  import opened Bytes
  import opened Cipher
  import opened Handle
  import opened FileState
  import opened Fs
  import opened FsState

  datatype Owner = AllocationBlock | FreeList | Lost | OneDirectory | OneFile(head: nat)

  ghost predicate Owns(o: Owner, v: Volume, s: State, free: set<nat>, lost: set<nat>, x: nat) {
    match o
    case AllocationBlock => x == v.allocSlot
    case FreeList => x in free
    case Lost => x in lost
    case OneDirectory => x in Dirs(s.nodes)
    case OneFile(f) => f in s.files && x in s.files[f].Slots()
  }

  /** Every slot of the volume has exactly one owner, and no slot outside it has any. */
  lemma EverySlotOnce(v: Volume, codec: Codec, file: seq<byte>, s: State, free: set<nat>, lost: set<nat>, x: nat)
    requires Holds(v, codec, file, s.nodes, free, lost) && Sound(s) && v.Valid()
    ensures v.slotStart <= x < v.slotLimit <==> exists o :: Owns(o, v, s, free, lost, x)
    ensures forall o, p :: Owns(o, v, s, free, lost, x) && Owns(p, v, s, free, lost, x) ==> o == p
  {
    hide Sound;
    hide Footprint;
    hide NodeAt;
    FilesDisjoint(s, x);
    UsedIsOwned(s, x);
    if v.slotStart <= x < v.slotLimit {
      if x == v.allocSlot {
        assert Owns(AllocationBlock, v, s, free, lost, x);
      } else if x in free {
        assert Owns(FreeList, v, s, free, lost, x);
      } else if x in lost {
        assert Owns(Lost, v, s, free, lost, x);
      } else if x in Dirs(s.nodes) {
        assert Owns(OneDirectory, v, s, free, lost, x);
      } else {
        var f :| f in s.files && x in s.files[f].Slots();
        assert Owns(OneFile(f), v, s, free, lost, x);
      }
    }
  }

  lemma UsedIsOwned(s: State, x: nat)
    requires Sound(s)
    ensures x in s.nodes <==> x in Dirs(s.nodes) || exists f :: f in s.files && x in s.files[f].Slots()
  {
    hide FileOk;
    hide Footprint;
    hide TreeSound;
    hide HandlesSound;
    assert x in s.nodes.Keys <==> x in Dirs(s.nodes).Keys + FileSlots(s.files);
  }

  lemma FilesDisjoint(s: State, x: nat)
    requires Sound(s)
    ensures forall f :: f in s.files && x in s.files[f].Slots() ==> x in s.nodes && !s.nodes[x].Directory?
    ensures forall f, g :: f in s.files && g in s.files && x in s.files[f].Slots() && x in s.files[g].Slots() ==> f == g
  {
    hide FileOk;
    hide Footprint;
    hide TreeSound;
    hide HandlesSound;
    hide FilesSound;
    forall f | f in s.files && x in s.files[f].Slots()
      ensures x in s.nodes && !s.nodes[x].Directory?
      ensures forall g :: g in s.files && x in s.files[g].Slots() ==> f == g
    {
      FileAt(s.nodes, s.files, f);
    }
  }
}
