/** Bytes, little-endian integers and writes into a flat file. */
module Bytes {

  type byte = x: int | 0 <= x < 256

  const U64: nat := 0x1_0000_0000_0000_0000

  function Zeros(n: nat): (z: seq<byte>)
    ensures |z| == n
  {
    seq(n, _ => 0)
  }

  function Pow2(e: nat): nat {
    if e == 0 then 1 else 2 * Pow2(e - 1)
  }

  function Pow256(width: nat): nat {
    if width == 0 then 1 else 256 * Pow256(width - 1)
  }

  /** The `width` low-order bytes of n, least significant first. */
  function Le(n: nat, width: nat): (s: seq<byte>)
    ensures |s| == width
  {
    if width == 0 then [] else [n % 256] + Le(n / 256, width - 1)
  }

  function FromLe(s: seq<byte>): nat {
    if s == [] then 0 else s[0] + 256 * FromLe(s[1..])
  }

  lemma {:induction false} LeRoundTrip(n: nat, width: nat)
    requires n < Pow256(width)
    ensures FromLe(Le(n, width)) == n
  {
    if width > 0 {
      LeRoundTrip(n / 256, width - 1);
      assert Le(n, width)[1..] == Le(n / 256, width - 1);
    }
  }

  lemma Pow256Values()
    ensures Pow256(4) == 0x1_0000_0000
    ensures Pow256(8) == U64
  {
    assert Pow256(1) == 256;
    assert Pow256(2) == 0x1_0000;
    assert Pow256(3) == 0x100_0000;
    assert Pow256(4) == 0x1_0000_0000;
    assert Pow256(5) == 0x100_0000_0000;
    assert Pow256(6) == 0x1_0000_0000_0000;
    assert Pow256(7) == 0x100_0000_0000_0000;
  }

  lemma {:induction false} FromLeBound(s: seq<byte>)
    ensures FromLe(s) < Pow256(|s|)
  {
    if s != [] { FromLeBound(s[1..]); }
  }

  lemma Le64RoundTrip(n: nat)
    requires n < U64
    ensures FromLe(Le(n, 8)) == n
  {
    Pow256Values();
    LeRoundTrip(n, 8);
  }

  lemma Le32RoundTrip(n: nat)
    requires n < 0x1_0000_0000
    ensures FromLe(Le(n, 4)) == n
  {
    Pow256Values();
    LeRoundTrip(n, 4);
  }

  /** Seek to `off` and write all of `data`; a seek past the end pads with zeros. */
  function Overwrite(file: seq<byte>, off: nat, data: seq<byte>): (r: seq<byte>)
    ensures |r| == if off + |data| <= |file| then |file| else off + |data|
  {
    var base := if off <= |file| then file else file + Zeros(off - |file|);
    base[..off] + data + (if off + |data| <= |base| then base[off + |data|..] else [])
  }

  /** The bytes just written are read back, and no other byte changes. */
  lemma OverwriteReads(file: seq<byte>, off: nat, data: seq<byte>)
    ensures Overwrite(file, off, data)[off..off + |data|] == data
    ensures forall j :: 0 <= j < |file| && !(off <= j < off + |data|) ==> Overwrite(file, off, data)[j] == file[j]
  {
  }

  /** A slice disjoint from the written range is unchanged. */
  lemma OverwriteElsewhere(file: seq<byte>, off: nat, data: seq<byte>, lo: nat, hi: nat)
    requires lo <= hi <= |file|
    requires hi <= off || off + |data| <= lo
    ensures Overwrite(file, off, data)[lo..hi] == file[lo..hi]
  {
    OverwriteReads(file, off, data);
  }

  /** Copy `d` into the buffer at the end of what is filled so far. */
  method Fill(buf: array<byte>, off: nat, d: seq<byte>, ghost done: seq<byte>)
    requires off == |done| && off + |d| <= buf.Length && buf[..] == done + Zeros(buf.Length - off)
    modifies buf
    ensures buf[..] == (done + d) + Zeros(buf.Length - off - |d|)
  {
    ghost var before := buf[..];
    forall i | 0 <= i < |d| { buf[off + i] := d[i]; }
    assert forall i :: 0 <= i < off ==> buf[i] == before[i];
    assert forall i :: off + |d| <= i < buf.Length ==> buf[i] == before[i];
    assert forall i :: 0 <= i < |d| ==> buf[off + i] == d[i];
  }
}
