/**
 The free list of vnmcore/src/storage/slot_store.rs: strictly descending, the least slot popped
 first, and saved as a bitmap with bit i for slot `start + i`.
 */
module FreeList {
  import opened Bytes

  ghost predicate StrictlyDescending(s: seq<nat>) {
    forall i, j :: 0 <= i < j < |s| ==> s[i] > s[j]
  }

  function Elements(s: seq<nat>): set<nat> {
    set x | x in s
  }

  /** The number of leading entries above `slot` (the partition point of a descending list). */
  function Position(s: seq<nat>, slot: nat): (p: nat)
    ensures p <= |s|
    ensures forall i :: 0 <= i < p ==> s[i] > slot
    ensures p < |s| ==> s[p] <= slot
  {
    if s == [] || s[0] <= slot then 0 else 1 + Position(s[1..], slot)
  }

  function Insert(s: seq<nat>, slot: nat): seq<nat> {
    s[..Position(s, slot)] + [slot] + s[Position(s, slot)..]
  }

  lemma InsertElements(s: seq<nat>, slot: nat)
    ensures Elements(Insert(s, slot)) == Elements(s) + {slot}
  {
    var p, r := Position(s, slot), Insert(s, slot);
    assert r[p] == slot;
    forall x | x in s ensures x in r {
      var i :| 0 <= i < |s| && s[i] == x;
      assert r[if i < p then i else i + 1] == x;
    }
  }

  /** Freeing a slot that is not already free keeps the list strictly descending. */
  lemma InsertDescends(s: seq<nat>, slot: nat)
    requires StrictlyDescending(s) && slot !in s
    ensures StrictlyDescending(Insert(s, slot))
  {
    var p, r := Position(s, slot), Insert(s, slot);
    assert forall i :: p <= i < |s| ==> s[i] < slot;
    forall i, j | 0 <= i < j < |r| ensures r[i] > r[j] {
      assert r[i] == if i < p then s[i] else if i == p then slot else s[i - 1];
      assert r[j] == if j < p then s[j] else if j == p then slot else s[j - 1];
    }
  }

  /** The popped entry is the least free slot, and freeing it again restores the list exactly. */
  lemma PopThenInsert(s: seq<nat>)
    requires StrictlyDescending(s) && s != []
    ensures forall x :: x in s ==> s[|s| - 1] <= x
    ensures s[|s| - 1] !in s[..|s| - 1]
    ensures Elements(s[..|s| - 1]) == Elements(s) - {s[|s| - 1]}
    ensures Insert(s[..|s| - 1], s[|s| - 1]) == s
  {
    var rest, least := s[..|s| - 1], s[|s| - 1];
    assert s == rest + [least];
    assert Position(rest, least) == |rest|;
  }

  /** Freeing a slot that is already free lists it twice in a row, so that two allocations in a row hand it out. */
  lemma FreedTwice(s: seq<nat>, slot: nat)
    requires StrictlyDescending(s)
    ensures slot in s <==> exists i :: 0 <= i < |s| && Insert(s, slot)[i] == slot && Insert(s, slot)[i + 1] == slot
    ensures slot in s <==> !StrictlyDescending(Insert(s, slot))
  {
    var p, r := Position(s, slot), Insert(s, slot);
    assert r[p] == slot;
    if slot in s {
      var i :| 0 <= i < |s| && s[i] == slot;
      assert i == p && r[p + 1] == slot;
    } else {
      InsertDescends(s, slot);
      assert forall i :: 0 <= i < |s| ==> r[i] > r[i + 1];
    }
  }

  /** The list without one slot. */
  method Retain(s: seq<nat>, slot: nat) returns (r: seq<nat>)
    requires StrictlyDescending(s)
    ensures StrictlyDescending(r)
    ensures forall x :: x in r <==> x in s && x != slot
  {
    r := [];
    for i := 0 to |s|
      invariant StrictlyDescending(r)
      invariant forall x :: x in r <==> x in s[..i] && x != slot
      invariant forall a, b :: 0 <= a < |r| && i <= b < |s| ==> r[a] > s[b]
    {
      assert s[..i + 1] == s[..i] + [s[i]];
      if s[i] != slot { r := r + [s[i]]; }
    }
    assert s[..|s|] == s;
  }

  /** A strictly descending list is determined by its elements. */
  lemma {:induction false} DescendingUnique(s: seq<nat>, t: seq<nat>)
    requires StrictlyDescending(s) && StrictlyDescending(t)
    requires forall x :: x in s <==> x in t
    ensures s == t
  {
    if s == [] {
      assert forall i :: 0 <= i < |t| ==> t[i] in s;
    } else {
      assert s[0] in t;
      assert t[0] in s;
      assert s[0] == t[0];
      forall x ensures x in s[1..] <==> x in t[1..] {
        assert x in s[1..] <==> x in s && x != s[0];
        assert x in t[1..] <==> x in t && x != t[0];
      }
      DescendingUnique(s[1..], t[1..]);
      assert s == [s[0]] + s[1..] && t == [t[0]] + t[1..];
    }
  }

  // ── Bitmap ────────────────────────────────────────────────────────────────

  /** Bit k of b, counting from the least significant. */
  predicate Bit(b: nat, k: nat) {
    if k == 0 then b % 2 == 1 else Bit(b / 2, k - 1)
  }

  /** b | (1 << k) */
  function OrBit(b: nat, k: nat): nat {
    if k == 0 then b / 2 * 2 + 1 else b % 2 + 2 * OrBit(b / 2, k - 1)
  }

  lemma {:induction false} OrBitBits(b: nat, k: nat, j: nat)
    ensures Bit(OrBit(b, k), j) <==> j == k || Bit(b, j)
  {
    if k > 0 && j > 0 { OrBitBits(b / 2, k - 1, j - 1); }
  }

  lemma {:induction false} ZeroBits(k: nat)
    ensures !Bit(0, k)
  {
    if k > 0 { ZeroBits(k - 1); }
  }

  lemma {:induction false} OrBitStaysAByte(b: nat, k: nat, width: nat)
    requires b < Pow2(width) && k < width
    ensures OrBit(b, k) < Pow2(width)
  {
    if k > 0 { OrBitStaysAByte(b / 2, k - 1, width - 1); }
  }

  lemma Pow2Of8()
    ensures Pow2(8) == 256
  {
    assert Pow2(4) == 16;
  }

  predicate BitAt(bitmap: seq<byte>, i: nat) {
    i / 8 < |bitmap| && Bit(bitmap[i / 8], i % 8)
  }

  /** Bit i is set exactly for the free slots. */
  ghost predicate Encodes(bitmap: seq<byte>, free: seq<nat>, start: nat, n: nat) {
    && |bitmap| == (n + 7) / 8
    && forall i: nat :: BitAt(bitmap, i) <==> start + i in free
  }

  method SaveBitmap(free: seq<nat>, start: nat, n: nat) returns (bitmap: seq<byte>)
    requires forall x :: x in free ==> start <= x < start + n
    ensures Encodes(bitmap, free, start, n)
  {
    var bits := new byte[(n + 7) / 8](_ => 0);
    forall k: nat ensures !Bit(0, k) { ZeroBits(k); }
    for k := 0 to |free|
      invariant forall i: nat :: BitAt(bits[..], i) <==> start + i in free[..k]
    {
      assert free[k] in free;
      var i := free[k] - start;
      ghost var before := bits[..];
      Pow2Of8();
      OrBitStaysAByte(bits[i / 8], i % 8, 8);
      bits[i / 8] := OrBit(bits[i / 8], i % 8);
      forall j: nat ensures BitAt(bits[..], j) <==> start + j in free[..k + 1] {
        assert free[..k + 1] == free[..k] + [free[k]];
        assert BitAt(before, j) <==> start + j in free[..k];
        if j / 8 == i / 8 {
          OrBitBits(before[i / 8], i % 8, j % 8);
        }
      }
    }
    assert free[..|free|] == free;
    bitmap := bits[..];
  }

  /** Insertion sort into descending order, for the library sort of `load_free_list`. */
  function SortDescending(s: seq<nat>): seq<nat> {
    if s == [] then [] else Insert(SortDescending(s[1..]), s[0])
  }

  lemma {:induction false} SortDescends(s: seq<nat>)
    requires forall i, j :: 0 <= i < j < |s| ==> s[i] != s[j]
    ensures StrictlyDescending(SortDescending(s))
    ensures Elements(SortDescending(s)) == Elements(s)
  {
    if s != [] {
      SortDescends(s[1..]);
      var t := SortDescending(s[1..]);
      assert s[0] !in s[1..];
      assert s[0] !in Elements(s[1..]);
      assert s[0] !in Elements(t);
      InsertDescends(t, s[0]);
      InsertElements(t, s[0]);
      assert Elements(s) == Elements(s[1..]) + {s[0]};
    }
  }

  method LoadBitmap(bitmap: seq<byte>, start: nat, n: nat) returns (free: seq<nat>)
    ensures StrictlyDescending(free)
    ensures forall x :: x in free <==> start <= x < start + n && BitAt(bitmap, x - start)
  {
    var list: seq<nat> := [];
    for i := 0 to n
      invariant forall a, b :: 0 <= a < b < |list| ==> list[a] < list[b]
      invariant forall a :: 0 <= a < |list| ==> list[a] < start + i
      invariant forall x :: x in list <==> start <= x < start + i && BitAt(bitmap, x - start)
    {
      if i / 8 < |bitmap| && Bit(bitmap[i / 8], i % 8) {
        list := list + [start + i];
      }
    }
    SortDescends(list);
    free := SortDescending(list);
    assert forall x :: x in free <==> x in Elements(free);
    assert forall x :: x in list <==> x in Elements(list);
  }

  /** Saving a free list and loading it back gives the identical list, for every slot count. */
  method SaveThenLoad(free: seq<nat>, start: nat, n: nat) returns (again: seq<nat>)
    requires StrictlyDescending(free)
    requires forall x :: x in free ==> start <= x < start + n
    ensures again == free
  {
    var bitmap := SaveBitmap(free, start, n);
    again := LoadBitmap(bitmap, start, n);
    EncodedListIsUnique(bitmap, free, again, start, n);
  }

  /** Any strictly descending list read off a bitmap that encodes `free` is `free`. */
  lemma EncodedListIsUnique(bitmap: seq<byte>, free: seq<nat>, again: seq<nat>, start: nat, n: nat)
    requires StrictlyDescending(free) && StrictlyDescending(again)
    requires forall x :: x in free ==> start <= x < start + n
    requires Encodes(bitmap, free, start, n)
    requires forall x :: x in again <==> start <= x < start + n && BitAt(bitmap, x - start)
    ensures again == free
  {
    forall x ensures x in again <==> x in free {
      if start <= x < start + n {
        var i: nat := x - start;
        assert BitAt(bitmap, i) <==> start + i in free;
      }
    }
    DescendingUnique(again, free);
  }
}
