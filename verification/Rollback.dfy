/**
 Rollback detection: the local baseline of vnmcore/src/rollback.rs, and the protocol that the
 container follows with it over whole runs of create, flush, snapshot, restore and open.
 */
module Rollback {
  import opened Wrappers
  import opened Bytes

  type ContainerId = seq<byte>

  /** Whether a generation is consistent with what was last seen of the container. */
  predicate Consistent(entries: map<ContainerId, nat>, id: ContainerId, gen: nat) {
    id in entries ==> entries[id] <= gen
  }

  /** Last-seen generations by container id, in step with the state file. */
  class RollbackState {
    var entries: map<ContainerId, nat>

    constructor (saved: map<ContainerId, nat>)
      ensures entries == saved
    {
      entries := saved;
    }

    method Check(id: ContainerId, currentGen: nat) returns (r: Result<(), VnmError>)
      ensures r.Ok? <==> Consistent(entries, id, currentGen)
      ensures r.Err? ==> id in entries && r.error == RollbackDetected(currentGen, entries[id])
    {
      if id in entries {
        var stored := entries[id];
        if currentGen < stored { return Err(RollbackDetected(currentGen, stored)); }
      }
      r := Ok(());
    }

    /** A state file that cannot be written keeps the old baselines. */
    method Update(id: ContainerId, gen: nat, writable: bool) returns (r: Result<(), VnmError>)
      modifies this
      ensures r == if writable then Ok(()) else Err(Io)
      ensures entries == if writable then old(entries)[id := gen] else old(entries)
    {
      r := Persist(entries[id := gen], writable);
    }

    method Reset(id: ContainerId, writable: bool) returns (r: Result<(), VnmError>)
      modifies this
      ensures r == if writable then Ok(()) else Err(Io)
      ensures entries == if writable then old(entries) - {id} else old(entries)
      ensures writable ==> forall g :: Consistent(entries, id, g)
    {
      r := Persist(entries - {id}, writable);
    }

    method Persist(changed: map<ContainerId, nat>, writable: bool) returns (r: Result<(), VnmError>)
      modifies this
      ensures r == if writable then Ok(()) else Err(Io)
      ensures entries == if writable then changed else old(entries)
    {
      if !writable { return Err(Io); }
      entries := changed;
      r := Ok(());
    }
  }

  // ── The protocol over runs ────────────────────────────────────────────────

  /** An allocation block on disk: the generation it holds and the save that wrote it, counted from 1. */
  datatype Block = Block(gen: nat, save: nat)

  /** One container under its id, beside whatever else the baseline holds. */
  datatype World = World(disk: Block, mounted: bool, memGen: nat, saves: nat, copies: set<Block>,
                         entries: map<ContainerId, nat>)

  datatype Event =
    | Flush
    | Close
    | Snapshot
    | Restore(copy: Block)
    | Open
    | OtherUpdate(other: ContainerId, gen: nat)
    | Reset

  /** `create` saves the free list once and records the baseline. */
  function Created(id: ContainerId, entries: map<ContainerId, nat>): World {
    World(Block(1, 1), true, 1, 1, {}, entries[id := 1])
  }

  /** Whether an open of this disk passes the baseline check. */
  predicate Accepts(w: World, id: ContainerId) {
    Consistent(w.entries, id, w.disk.gen)
  }

  /** Events that can happen: flush while mounted, restore one of the copies or open while not. */
  predicate Enabled(w: World, id: ContainerId, e: Event) {
    match e
    case Flush => w.mounted
    case Close => w.mounted
    case Snapshot => true
    case Restore(b) => !w.mounted && b in w.copies
    case Open => !w.mounted
    case OtherUpdate(other, _) => other != id
    case Reset => true
  }

  function Step(w: World, id: ContainerId, e: Event): World {
    match e
    case Flush =>
      var gen := (w.memGen + 1) % U64;
      w.(disk := Block(gen, w.saves + 1), memGen := gen, saves := w.saves + 1, entries := w.entries[id := gen])
    case Close => w.(mounted := false)
    case Snapshot => w.(copies := w.copies + {w.disk})
    case Restore(b) => w.(disk := b)
    case Open => if Accepts(w, id) then w.(mounted := true, memGen := w.disk.gen) else w
    case OtherUpdate(other, gen) => w.(entries := w.entries[other := gen])
    case Reset => w.(entries := w.entries - {id})
  }

  /** A run: a world and the events that led to it from a fresh container. */
  ghost predicate Reaches(id: ContainerId, entries: map<ContainerId, nat>, events: seq<Event>, w: World)
    decreases |events|
  {
    if events == [] then w == Created(id, entries)
    else
      var last := events[|events| - 1];
      exists v :: Reaches(id, entries, events[..|events| - 1], v) && Enabled(v, id, last) && w == Step(v, id, last)
  }

  /** The generation of the k-th save of a history that never forked. */
  function GenOf(save: nat): nat {
    save % U64
  }

  /** What every step keeps while the counter has not wrapped. */
  ghost predicate Linear(w: World, id: ContainerId) {
    && 1 <= w.saves
    && id in w.entries && w.entries[id] == w.saves
    && (w.mounted ==> w.disk == Block(w.saves, w.saves) && w.memGen == w.saves)
    && w.disk.gen == w.disk.save && 1 <= w.disk.save <= w.saves
    && forall b :: b in w.copies ==> b.gen == b.save && 1 <= b.save <= w.saves
  }

  lemma StepLinear(w: World, id: ContainerId, e: Event)
    requires Linear(w, id) && Enabled(w, id, e) && e != Reset && Step(w, id, e).saves < U64
    ensures Linear(Step(w, id, e), id)
  {
  }

  /**
   In every run without a reset and with fewer than 2^64 saves, an open is accepted exactly when the
   allocation block on disk is the one that the latest save wrote.
   */
  lemma {:induction false} OnlyLatestOpens(id: ContainerId, entries: map<ContainerId, nat>, events: seq<Event>,
                                           w: World)
    requires Reaches(id, entries, events, w) && Reset !in events && w.saves < U64
    ensures Linear(w, id)
    ensures Accepts(w, id) <==> w.disk.save == w.saves
    decreases |events|
  {
    if events != [] {
      var last := events[|events| - 1];
      var v :| Reaches(id, entries, events[..|events| - 1], v) && Enabled(v, id, last) && w == Step(v, id, last);
      OnlyLatestOpens(id, entries, events[..|events| - 1], v);
      StepLinear(v, id, last);
    }
  }

  /**
   The bound is exact: with the generations of an unforked history of n saves, no earlier save passes
   the check against the latest baseline if and only if n < 2^64. From then on the counter has wrapped.
   */
  lemma WrapIsTheLimit(id: ContainerId, entries: map<ContainerId, nat>, n: nat)
    requires n >= 1
    ensures (forall k :: 1 <= k < n ==> !Consistent(entries[id := GenOf(n)], id, GenOf(k))) <==> n < U64
    ensures Consistent(entries[id := GenOf(n)], id, GenOf(n))
  {
    var known := entries[id := GenOf(n)];
    if n < U64 {
      forall k | 1 <= k < n ensures !Consistent(known, id, GenOf(k)) {
        assert GenOf(k) == k && GenOf(n) == n;
      }
    } else {
      var k := if n == U64 then 1 else n - U64;
      assert GenOf(k) == if n == U64 then 1 else GenOf(n);
      assert Consistent(known, id, GenOf(k)) && 1 <= k < n;
    }
  }

  /** After n saves in a row, with these copies taken on the way. */
  function Flushed(id: ContainerId, entries: map<ContainerId, nat>, n: nat, copies: set<Block>): World {
    World(Block(GenOf(n), n), true, GenOf(n), n, copies, entries[id := GenOf(n)])
  }

  lemma OneMoreEvent(id: ContainerId, entries: map<ContainerId, nat>, events: seq<Event>, w: World, e: Event)
    requires Reaches(id, entries, events, w) && Enabled(w, id, e)
    ensures Reaches(id, entries, events + [e], Step(w, id, e))
  {
    var more := events + [e];
    assert more[..|more| - 1] == events && more[|more| - 1] == e;
    assert Reaches(id, entries, more[..|more| - 1], w);
  }

  lemma FreshRun(id: ContainerId, entries: map<ContainerId, nat>)
    ensures Reaches(id, entries, [], Flushed(id, entries, 1, {}))
  {
  }

  lemma FlushStep(id: ContainerId, entries: map<ContainerId, nat>, n: nat, copies: set<Block>)
    ensures Enabled(Flushed(id, entries, n, copies), id, Flush)
    ensures Step(Flushed(id, entries, n, copies), id, Flush) == Flushed(id, entries, n + 1, copies)
  {
    assert entries[id := GenOf(n)][id := GenOf(n + 1)] == entries[id := GenOf(n + 1)];
  }

  lemma {:induction false} MoreFlushes(id: ContainerId, entries: map<ContainerId, nat>, events: seq<Event>, n: nat,
                                       copies: set<Block>, m: nat)
    returns (events': seq<Event>)
    requires Reaches(id, entries, events, Flushed(id, entries, n, copies)) && Reset !in events
    ensures Reaches(id, entries, events', Flushed(id, entries, n + m, copies)) && Reset !in events'
    decreases m
  {
    events' := events;
    if m > 0 {
      hide Reaches;
      hide Flushed;
      hide Step;
      FlushStep(id, entries, n, copies);
      OneMoreEvent(id, entries, events, Flushed(id, entries, n, copies), Flush);
      events' := MoreFlushes(id, entries, events + [Flush], n + 1, copies, m - 1);
    }
  }

  /** For every n from 2^64 on there is a run with n saves and no reset after which a stale block is accepted. */
  lemma StaleAccepted(id: ContainerId, entries: map<ContainerId, nat>, n: nat) returns (events: seq<Event>, w: World)
    requires n >= U64
    ensures Reaches(id, entries, events, w) && Reset !in events && w.saves == n
    ensures !w.mounted && w.disk.save < n && Accepts(w, id)
  {
    hide Reaches;
    var k := if n == U64 then 1 else n - U64;
    assert GenOf(k) == if n == U64 then 1 else GenOf(n);
    var old_ := Block(GenOf(k), k);
    FreshRun(id, entries);
    events := MoreFlushes(id, entries, [], 1, {}, k - 1);
    w := Flushed(id, entries, k, {});
    OneMoreEvent(id, entries, events, w, Snapshot);
    events := events + [Snapshot];
    assert {} + {old_} == {old_};
    events := MoreFlushes(id, entries, events, k, {old_}, n - k);
    w := Flushed(id, entries, n, {old_});
    OneMoreEvent(id, entries, events, w, Close);
    events := events + [Close];
    w := Step(w, id, Close);
    OneMoreEvent(id, entries, events, w, Restore(old_));
    events := events + [Restore(old_)];
    w := Step(w, id, Restore(old_));
  }
}
