/** An instance of the laws assumed of node serialisation: nodes as lists of numbers, numbers in unary. */
module Codecs {
  import opened Wrappers
  import opened Bytes
  import opened VaultFs

  // ── Numbers as bytes ──────────────────────────────────────────────────────

  /** Each number as that many ones and a zero. */
  function Unary(ts: seq<nat>): seq<byte> {
    if ts == [] then [] else seq(ts[0], _ => 1) + [0] + Unary(ts[1..])
  }

  /** The numbers of such a string, the first of which has begun with `ones` ones already. */
  function Numbers(b: seq<byte>, ones: nat): seq<nat> {
    if b == [] then []
    else if b[0] == 0 then [ones] + Numbers(b[1..], 0)
    else Numbers(b[1..], ones + 1)
  }

  lemma {:induction false} OnesRead(n: nat, rest: seq<byte>, ones: nat)
    ensures Numbers(seq(n, _ => 1) + [0] + rest, ones) == [ones + n] + Numbers(rest, 0)
  {
    var b: seq<byte> := seq(n, _ => 1) + [0] + rest;
    if n == 0 {
      assert b[1..] == rest;
    } else {
      assert b[1..] == seq(n - 1, _ => 1) + [0] + rest;
      OnesRead(n - 1, rest, ones + 1);
    }
  }

  lemma {:induction false} UnaryRead(ts: seq<nat>)
    ensures Numbers(Unary(ts), 0) == ts
  {
    if ts != [] {
      OnesRead(ts[0], Unary(ts[1..]), 0);
      UnaryRead(ts[1..]);
    }
  }

  // ── Nodes as numbers ──────────────────────────────────────────────────────

  function OfOption(o: Option<nat>): seq<nat> {
    match o
    case None => [0, 0]
    case Some(v) => [1, v]
  }

  function ToOption(t: nat, v: nat): Option<nat> {
    if t == 0 then None else Some(v)
  }

  function OfName(name: string): (ts: seq<nat>)
    ensures |ts| == |name|
  {
    seq(|name|, i requires 0 <= i < |name| => name[i] as int as nat)
  }

  function ToName(ts: seq<nat>): (name: string)
    ensures |name| == |ts|
  {
    seq(|ts|, i requires 0 <= i < |ts| => if ts[i] < 0xD800 || 0xE000 <= ts[i] < 0x11_0000 then ts[i] as char else ' ')
  }

  function ToBytes(ts: seq<nat>): (b: seq<byte>)
    ensures |b| == |ts|
  {
    seq(|ts|, i requires 0 <= i < |ts| => ts[i] % 256)
  }

  function OfEntries(es: seq<DirEntry>): seq<nat> {
    if es == [] then []
    else
      [|es[0].name|] + OfName(es[0].name) + [es[0].slot, if es[0].kind.DirectoryKind? then 0 else 1]
        + OfEntries(es[1..])
  }

  function ToEntries(ts: seq<nat>): seq<DirEntry> {
    if ts == [] || |ts| < ts[0] + 3 then []
    else
      var n := ts[0];
      [DirEntry(ToName(ts[1..n + 1]), ts[n + 1], if ts[n + 2] == 0 then DirectoryKind else FileKind)]
      + ToEntries(ts[n + 3..])
  }

  lemma NameRead(name: string)
    ensures ToName(OfName(name)) == name
  {
  }

  lemma {:induction false} EntriesRead(es: seq<DirEntry>)
    ensures ToEntries(OfEntries(es)) == es
  {
    if es != [] {
      var e, ts, n := es[0], OfEntries(es), |es[0].name|;
      assert ts[1..n + 1] == OfName(e.name);
      assert ts[n + 1] == e.slot && ts[n + 2] == if e.kind.DirectoryKind? then 0 else 1;
      assert ts[n + 3..] == OfEntries(es[1..]);
      NameRead(e.name);
      EntriesRead(es[1..]);
    }
  }

  function OfNode(n: Node): seq<nat> {
    match n
    case Directory(entries) => [0] + OfEntries(entries)
    case File(totalSize, dataSlots, indexChain, data) =>
      [1, totalSize] + OfOption(indexChain) + [|dataSlots|] + dataSlots
        + seq(|data|, i requires 0 <= i < |data| => data[i])
    case FileData(bytes) => [2] + seq(|bytes|, i requires 0 <= i < |bytes| => bytes[i])
    case FileIndex(slotIds, nextIndex) => [3] + OfOption(nextIndex) + slotIds
  }

  function ToNode(ts: seq<nat>): Option<Node> {
    if ts == [] then None
    else if ts[0] == 0 then Some(Directory(ToEntries(ts[1..])))
    else if ts[0] == 1 && |ts| >= 5 && |ts| >= 5 + ts[4] then
      Some(File(ts[1], ts[5..5 + ts[4]], ToOption(ts[2], ts[3]), ToBytes(ts[5 + ts[4]..])))
    else if ts[0] == 2 then Some(FileData(ToBytes(ts[1..])))
    else if ts[0] == 3 && |ts| >= 3 then Some(FileIndex(ts[3..], ToOption(ts[1], ts[2])))
    else None
  }

  lemma NodeRead(n: Node)
    ensures OfNode(n) != [] && ToNode(OfNode(n)) == Some(n)
  {
    var ts := OfNode(n);
    match n
    case Directory(entries) =>
      assert ts[1..] == OfEntries(entries);
      EntriesRead(entries);
    case File(totalSize, dataSlots, indexChain, data) =>
      assert ts[5..5 + |dataSlots|] == dataSlots;
      assert ToBytes(ts[5 + |dataSlots|..]) == data;
    case FileData(bytes) =>
      assert ToBytes(ts[1..]) == bytes;
    case FileIndex(slotIds, nextIndex) =>
      assert ts[3..] == slotIds;
  }

  function UnaryCodec(): Codec {
    Codec(n => Unary(OfNode(n)), b => ToNode(Numbers(b, 0)))
  }

  /** The laws assumed of serialisation can be met. */
  lemma LawfulIsConsistent()
    ensures Lawful(UnaryCodec())
  {
    forall n ensures UnaryCodec().encode(n) != [] && UnaryCodec().decode(UnaryCodec().encode(n)) == Some(n) {
      NodeRead(n);
      UnaryRead(OfNode(n));
    }
  }
}
