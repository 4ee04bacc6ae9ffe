/**
 The Merkle root of vnmcore/src/storage/merkle.rs: a bottom-up loop that carries an odd node up,
 equal to the recursive tree of section 2.1 of RFC 6962, and binding up to explicit collisions.
 */
module Merkle {
  import opened Wrappers
  import opened Bytes
  import opened Layout

  type Hash = (string, seq<byte>) -> seq<byte>

  /** BLAKE3 in key-derivation mode: 32 bytes for every context and message. */
  ghost predicate Digests(h: Hash) {
    forall c, m :: |h(c, m)| == 32
  }

  const LEAF_CTX: string := "venom:merkle:leaf:v1"
  const NODE_CTX: string := "venom:merkle:node:v1"

  function SlotOffset(slot: nat): nat {
    DATA_AREA_OFFSET + slot * SLOT_SIZE
  }

  /** The raw bytes of one slot, if the file is long enough to hold them. */
  function RawSlot(file: seq<byte>, slot: nat): Option<seq<byte>> {
    if SlotOffset(slot) + SLOT_SIZE <= |file| then Some(file[SlotOffset(slot)..SlotOffset(slot) + SLOT_SIZE]) else None
  }

  predicate Readable(file: seq<byte>, slots: seq<nat>) {
    forall i :: 0 <= i < |slots| ==> RawSlot(file, slots[i]).Some?
  }

  function LeafMessage(slot: nat, raw: seq<byte>): seq<byte> {
    Le(slot, 8) + raw
  }

  /** The message hashed for each slot, in list order. */
  function Messages(file: seq<byte>, slots: seq<nat>): (m: seq<seq<byte>>)
    requires Readable(file, slots)
    ensures |m| == |slots|
  {
    seq(|slots|, i requires 0 <= i < |slots| => LeafMessage(slots[i], RawSlot(file, slots[i]).value))
  }

  function LeafHash(h: Hash, m: seq<byte>): seq<byte> { h(LEAF_CTX, m) }
  function NodeHash(h: Hash, l: seq<byte>, r: seq<byte>): seq<byte> { h(NODE_CTX, l + r) }

  function LeafHashes(h: Hash, ms: seq<seq<byte>>): (d: seq<seq<byte>>)
    ensures |d| == |ms|
  {
    seq(|ms|, i requires 0 <= i < |ms| => LeafHash(h, ms[i]))
  }

  // ── The tree of RFC 6962 ──────────────────────────────────────────────────

  ghost predicate IsPow2(k: nat) {
    exists e: nat :: k == Pow2(e)
  }

  /** The largest power of two strictly below n. */
  function SplitPoint(n: nat): (k: nat)
    requires n >= 2
    ensures 1 <= k < n <= 2 * k
    ensures IsPow2(k)
  {
    if n == 2 then
      assert 1 == Pow2(0);
      1
    else
      var k := SplitPoint((n + 1) / 2);
      assert IsPow2(2 * k) by {
        var e: nat :| k == Pow2(e);
        assert 2 * k == Pow2(e + 1);
      }
      2 * k
  }

  /** No other power of two lies in that interval. */
  lemma SplitPointUnique(n: nat, k: nat)
    requires n >= 2 && IsPow2(k) && k < n <= 2 * k
    ensures k == SplitPoint(n)
  {
    var a: nat :| k == Pow2(a);
    var b: nat :| SplitPoint(n) == Pow2(b);
    if a < b { Pow2Grows(a, b); }
    if b < a { Pow2Grows(b, a); }
  }

  lemma {:induction false} Pow2Grows(a: nat, b: nat)
    requires a < b
    ensures 2 * Pow2(a) <= Pow2(b)
  {
    if a + 1 < b { Pow2Grows(a, b - 1); }
  }

  /** MTH of section 2.1 of RFC 6962 over already hashed leaves. */
  function TreeHash(h: Hash, d: seq<seq<byte>>): seq<byte>
    requires d != []
  {
    if |d| == 1 then d[0]
    else
      var k := SplitPoint(|d|);
      NodeHash(h, TreeHash(h, d[..k]), TreeHash(h, d[k..]))
  }

  /** One pass of the reduction: adjacent pairs are combined, an odd last node is carried up. */
  function Level(h: Hash, d: seq<seq<byte>>): (r: seq<seq<byte>>)
    ensures |r| == (|d| + 1) / 2
  {
    seq((|d| + 1) / 2, i requires 0 <= i < (|d| + 1) / 2 =>
      if 2 * i + 1 < |d| then NodeHash(h, d[2 * i], d[2 * i + 1]) else d[2 * i])
  }

  lemma LevelSplits(h: Hash, d: seq<seq<byte>>, k: nat)
    requires k <= |d| && k % 2 == 0
    ensures Level(h, d)[..k / 2] == Level(h, d[..k])
    ensures Level(h, d)[k / 2..] == Level(h, d[k..])
  {
    var a, b := Level(h, d)[k / 2..], Level(h, d[k..]);
    assert |a| == |b|;
    forall i | 0 <= i < |b| ensures a[i] == b[i] {
      assert a[i] == Level(h, d)[k / 2 + i];
      assert 2 * (k / 2 + i) == k + 2 * i;
    }
  }

  /** A pass does not change the tree hash: the loop computes the recursive tree. */
  lemma {:induction false} LevelKeepsTree(h: Hash, d: seq<seq<byte>>)
    requires d != []
    ensures TreeHash(h, Level(h, d)) == TreeHash(h, d)
    decreases |d|
  {
    var n := |d|;
    var up := Level(h, d);
    if n == 1 {
      assert up == d;
    } else if n == 2 {
      assert SplitPoint(2) == 1;
      assert d[..1] == [d[0]] && d[1..] == [d[1]];
      assert TreeHash(h, d) == NodeHash(h, d[0], d[1]);
      assert up == [NodeHash(h, d[0], d[1])];
    } else {
      var k := SplitPoint(n);
      assert SplitPoint(|up|) == k / 2;
      LevelSplits(h, d, k);
      LevelKeepsTree(h, d[..k]);
      LevelKeepsTree(h, d[k..]);
      assert TreeHash(h, up) == NodeHash(h, TreeHash(h, up[..k / 2]), TreeHash(h, up[k / 2..]));
    }
  }

  // ── The program ───────────────────────────────────────────────────────────

  const ZERO_ROOT: seq<byte> := Zeros(32)

  /** The root of a slot list: all zeros for no slots, else the RFC 6962 tree over the leaf hashes. */
  function Root(h: Hash, file: seq<byte>, slots: seq<nat>): seq<byte>
    requires Readable(file, slots)
  {
    if slots == [] then ZERO_ROOT else TreeHash(h, LeafHashes(h, Messages(file, slots)))
  }

  method ComputeMerkleRoot(h: Hash, file: seq<byte>, usedSlots: seq<nat>) returns (r: Result<seq<byte>, VnmError>)
    ensures r == if Readable(file, usedSlots) then Ok(Root(h, file, usedSlots)) else Err(ShortRead)
  {
    if usedSlots == [] { return Ok(ZERO_ROOT); }

    var leaves: seq<seq<byte>> := [];
    for i := 0 to |usedSlots|
      invariant Readable(file, usedSlots[..i])
      invariant leaves == LeafHashes(h, Messages(file, usedSlots[..i]))
    {
      var raw := RawSlot(file, usedSlots[i]);
      if raw.None? { return Err(ShortRead); }
      assert usedSlots[..i + 1] == usedSlots[..i] + [usedSlots[i]];
      leaves := leaves + [h(LEAF_CTX, Le(usedSlots[i], 8) + raw.value)];
    }
    assert usedSlots[..|usedSlots|] == usedSlots;
    var root := Reduce(h, leaves);
    r := Ok(root);
  }

  method Reduce(h: Hash, hashes: seq<seq<byte>>) returns (root: seq<byte>)
    requires hashes != []
    ensures root == TreeHash(h, hashes)
  {
    var leaves := hashes;
    while |leaves| > 1
      invariant leaves != []
      invariant TreeHash(h, leaves) == TreeHash(h, hashes)
      decreases |leaves|
    {
      LevelKeepsTree(h, leaves);
      leaves := NextLevel(h, leaves);
    }
    root := leaves[0];
  }

  method NextLevel(h: Hash, leaves: seq<seq<byte>>) returns (next: seq<seq<byte>>)
    ensures next == Level(h, leaves)
  {
    next := [];
    var i := 0;
    while i < |leaves|
      invariant 0 <= i <= |leaves|
      invariant i % 2 == 0 || i == |leaves|
      invariant |next| == (i + 1) / 2
      invariant forall j :: 0 <= j < |next| ==> next[j] == Level(h, leaves)[j]
    {
      if i + 1 < |leaves| {
        next := next + [h(NODE_CTX, leaves[i] + leaves[i + 1])];
        i := i + 2;
      } else {
        next := next + [leaves[i]];
        i := i + 1;
      }
    }
  }

  // ── Binding ───────────────────────────────────────────────────────────────

  datatype Tree = Leaf(message: seq<byte>) | Node(left: Tree, right: Tree)

  function HashOf(h: Hash, t: Tree): seq<byte> {
    match t
    case Leaf(m) => LeafHash(h, m)
    case Node(l, r) => NodeHash(h, HashOf(h, l), HashOf(h, r))
  }

  function Build(ms: seq<seq<byte>>): Tree
    requires ms != []
  {
    if |ms| == 1 then Leaf(ms[0])
    else Node(Build(ms[..SplitPoint(|ms|)]), Build(ms[SplitPoint(|ms|)..]))
  }

  function Flatten(t: Tree): seq<seq<byte>> {
    match t
    case Leaf(m) => [m]
    case Node(l, r) => Flatten(l) + Flatten(r)
  }

  lemma {:induction false} FlattenBuild(ms: seq<seq<byte>>)
    requires ms != []
    ensures Flatten(Build(ms)) == ms
  {
    if |ms| > 1 {
      var k := SplitPoint(|ms|);
      FlattenBuild(ms[..k]);
      FlattenBuild(ms[k..]);
      assert ms[..k] + ms[k..] == ms;
    }
  }

  lemma {:induction false} HashOfBuild(h: Hash, ms: seq<seq<byte>>)
    requires ms != []
    ensures HashOf(h, Build(ms)) == TreeHash(h, LeafHashes(h, ms))
  {
    if |ms| > 1 {
      var k := SplitPoint(|ms|);
      HashOfBuild(h, ms[..k]);
      HashOfBuild(h, ms[k..]);
      assert LeafHashes(h, ms)[..k] == LeafHashes(h, ms[..k]);
      assert LeafHashes(h, ms)[k..] == LeafHashes(h, ms[k..]);
    }
  }

  /** One call of the hash: context and message. */
  datatype Query = Query(ctx: string, message: seq<byte>)

  function Ask(h: Hash, q: Query): seq<byte> { h(q.ctx, q.message) }

  /** Two different calls with the same answer. */
  predicate Collides(h: Hash, q: (Query, Query)) {
    q.0 != q.1 && Ask(h, q.0) == Ask(h, q.1)
  }

  /** What it takes to get past the root: two calls with one answer, or a call that answers all zeros. */
  datatype Breach = Collision(pair: (Query, Query)) | ZeroDigest(query: Query)

  predicate IsBreach(h: Hash, b: Breach) {
    match b
    case Collision(pair) => Collides(h, pair)
    case ZeroDigest(q) => Ask(h, q) == ZERO_ROOT
  }

  /** The root of a non-empty list is the answer to one call of the hash. */
  lemma RootIsAnswer(h: Hash, f: seq<byte>, s: seq<nat>) returns (q: Query)
    requires s != [] && Readable(f, s)
    ensures Ask(h, q) == Root(h, f, s)
  {
    var ms := Messages(f, s);
    HashOfBuild(h, ms);
    match Build(ms) {
      case Leaf(m) => q := Query(LEAF_CTX, m);
      case Node(l, r) => q := Query(NODE_CTX, HashOf(h, l) + HashOf(h, r));
    }
  }

  /** From two different trees with the same hash, walk down to a colliding pair of calls. */
  function TreeCollision(h: Hash, a: Tree, b: Tree): (q: (Query, Query))
    requires Digests(h) && a != b && HashOf(h, a) == HashOf(h, b)
    ensures Collides(h, q)
  {
    match (a, b)
    case (Leaf(m), Leaf(n)) => (Query(LEAF_CTX, m), Query(LEAF_CTX, n))
    case (Leaf(m), Node(l, r)) =>
      assert LEAF_CTX[13] == 'l' && NODE_CTX[13] == 'n';
      (Query(LEAF_CTX, m), Query(NODE_CTX, HashOf(h, l) + HashOf(h, r)))
    case (Node(l, r), Leaf(m)) =>
      assert LEAF_CTX[13] == 'l' && NODE_CTX[13] == 'n';
      (Query(NODE_CTX, HashOf(h, l) + HashOf(h, r)), Query(LEAF_CTX, m))
    case (Node(l, r), Node(l', r')) =>
      var m, m' := HashOf(h, l) + HashOf(h, r), HashOf(h, l') + HashOf(h, r');
      if m != m' then (Query(NODE_CTX, m), Query(NODE_CTX, m'))
      else
        assert |HashOf(h, l)| == 32 && |HashOf(h, l')| == 32 by { HashLength(h, l); HashLength(h, l'); }
        assert HashOf(h, l) == m[..32] && HashOf(h, l') == m'[..32];
        assert HashOf(h, r) == m[32..] && HashOf(h, r') == m'[32..];
        if l != l' then TreeCollision(h, l, l') else TreeCollision(h, r, r')
  }

  lemma HashLength(h: Hash, t: Tree)
    requires Digests(h)
    ensures |HashOf(h, t)| == 32
  {
  }

  /** Different slot lists or different slot bytes give different leaf messages. */
  lemma MessagesInjective(f: seq<byte>, s: seq<nat>, f': seq<byte>, s': seq<nat>)
    requires Readable(f, s) && Readable(f', s')
    requires forall i :: 0 <= i < |s| ==> s[i] < U64
    requires forall i :: 0 <= i < |s'| ==> s'[i] < U64
    requires Messages(f, s) == Messages(f', s')
    ensures s == s'
    ensures forall i :: 0 <= i < |s| ==> RawSlot(f, s[i]) == RawSlot(f', s[i])
  {
    assert |s| == |Messages(f, s)| == |Messages(f', s')| == |s'|;
    forall i | 0 <= i < |s| ensures s[i] == s'[i] && RawSlot(f, s[i]) == RawSlot(f', s[i]) {
      var m := Messages(f, s)[i];
      assert m == Messages(f', s')[i];
      Le64RoundTrip(s[i]);
      Le64RoundTrip(s'[i]);
      assert m[..8] == Le(s[i], 8) && m[..8] == Le(s'[i], 8);
      assert m[8..] == RawSlot(f, s[i]).value && m[8..] == RawSlot(f', s'[i]).value;
    }
  }

  /**
   Binding: two files and slot lists with the same root either agree on the list and on every
   listed slot's raw bytes, or a concrete pair of colliding hash calls is at hand.
   */
  lemma RootBinds(h: Hash, f: seq<byte>, s: seq<nat>, f': seq<byte>, s': seq<nat>)
    returns (q: Option<(Query, Query)>)
    requires Digests(h)
    requires Readable(f, s) && Readable(f', s')
    requires forall i :: 0 <= i < |s| ==> s[i] < U64
    requires forall i :: 0 <= i < |s'| ==> s'[i] < U64
    requires Root(h, f, s) == Root(h, f', s') != ZERO_ROOT
    ensures q.Some? ==> Collides(h, q.value)
    ensures q.None? ==> s == s' && forall i :: 0 <= i < |s| ==> RawSlot(f, s[i]) == RawSlot(f', s[i])
  {
    var ms, ms' := Messages(f, s), Messages(f', s');
    if ms == ms' {
      MessagesInjective(f, s, f', s');
      return None;
    }
    HashOfBuild(h, ms);
    HashOfBuild(h, ms');
    FlattenBuild(ms);
    FlattenBuild(ms');
    q := Some(TreeCollision(h, Build(ms), Build(ms')));
  }
}
