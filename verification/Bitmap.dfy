/** The permission bitmap of src/access_io.c: set_bitmap and netbsd_ioport. A word is its
    thirty-two bits, least significant first, and the C operators act bit by bit. */
module Bitmap {

  type Word = w: seq<bool> | |w| == 32 witness seq(32, i => false)

  function Zeros(): Word { seq(32, k => false) }

  function Ones(): Word { seq(32, k => true) }

  function Not(a: Word): Word { seq(32, k requires 0 <= k < 32 => !a[k]) }

  function And(a: Word, b: Word): Word { seq(32, k requires 0 <= k < 32 => a[k] && b[k]) }

  function Or(a: Word, b: Word): Word { seq(32, k requires 0 <= k < 32 => a[k] || b[k]) }

  function Shl(a: Word, n: nat): Word { seq(32, k requires 0 <= k < 32 => k >= n && a[k - n]) }

  /** *p |= mask or *p &= ~mask. */
  function Put(a: Word, mask: Word, new_value: bool): Word {
    if new_value then Or(a, mask) else And(a, Not(mask))
  }

  lemma PutBits(a: Word, mask: Word, new_value: bool)
    ensures forall k :: 0 <= k < 32 ==> Put(a, mask, new_value)[k] == if mask[k] then new_value else a[k]
  {
  }

  /** Every bit of the map from base on, extent bits long, has the value; all others are as
      they were. */
  ghost predicate RangeSet(now: seq<Word>, was: seq<Word>, base: nat, extent: nat, value: bool) {
    && |now| == |was|
    && forall w, k :: 0 <= w < |now| && 0 <= k < 32 ==>
         now[w][k] == if base <= 32 * w + k < base + extent then value else was[w][k]
  }

  method SetBitmap(bitmap: array<Word>, base: nat, extent: nat, new_value: bool)
    requires base + extent <= 32 * bitmap.Length
    modifies bitmap
    ensures RangeSet(bitmap[..], old(bitmap[..]), base, extent, new_value)
  {
    ghost var was := bitmap[..];
    var p := base / 32;
    var low_index := base % 32;
    var length: int := low_index + extent;
    if low_index != 0 {
      var mask := Shl(Ones(), low_index);
      if length < 32 {
        mask := And(mask, Not(Shl(Ones(), length)));
      }
      PutBits(bitmap[p], mask, new_value);
      bitmap[p] := Put(bitmap[p], mask, new_value);
      p := p + 1;
      length := length - 32;
    }
    var fill := if new_value then Ones() else Zeros();
    while length >= 32
      invariant 0 <= p && 32 * p + length == base + extent
      invariant length > -32 && (length > 0 ==> 32 * p >= base)
      invariant p <= bitmap.Length
      invariant forall w :: p <= w < bitmap.Length ==> bitmap[w] == was[w]
      invariant forall w, k :: 0 <= w < p && 0 <= k < 32 ==>
                  bitmap[w][k] == if base <= 32 * w + k < base + extent then new_value else was[w][k]
    {
      bitmap[p] := fill;
      p := p + 1;
      length := length - 32;
    }
    if length > 0 {
      var mask := Not(Shl(Ones(), length));
      PutBits(bitmap[p], mask, new_value);
      bitmap[p] := Put(bitmap[p], mask, new_value);
    }
  }

  /** netbsd_ioport: permit one port. */
  method NetbsdIoport(iomap: array<Word>, port: nat)
    requires port < 32 * iomap.Length
    modifies iomap
    ensures RangeSet(iomap[..], old(iomap[..]), port, 1, false)
  {
    var mask := Shl([true] + seq(31, k => false), port % 32);
    PutBits(iomap[port / 32], mask, false);
    iomap[port / 32] := And(iomap[port / 32], Not(mask));
  }

  /** The three calls made when a port is opened on NetBSD have the effect of the one call
      of set_bitmap made on OpenBSD. */
  method NetbsdOpen(iomap: array<Word>, base: nat)
    requires base + 3 <= 32 * iomap.Length
    modifies iomap
    ensures RangeSet(iomap[..], old(iomap[..]), base, 3, false)
  {
    NetbsdIoport(iomap, base);
    NetbsdIoport(iomap, base + 1);
    NetbsdIoport(iomap, base + 2);
  }

  /** The two ways of opening a port leave the same map. */
  lemma SameMap(a: seq<Word>, b: seq<Word>, was: seq<Word>, base: nat, extent: nat, value: bool)
    requires RangeSet(a, was, base, extent, value) && RangeSet(b, was, base, extent, value)
    ensures a == b
  {
    forall w | 0 <= w < |a|
      ensures a[w] == b[w]
    {
      assert forall k :: 0 <= k < 32 ==> a[w][k] == b[w][k];
    }
  }
}
