/**
 The cache map of a proxied image: one bit per 4 KiB block, eight to a byte, least significant first.
 The byte-mask operations of `image.h` and `image.c` and the sets of blocks they stand for.
 */
module CacheBits {
  import opened Units

  /** File bytes covered by one map byte. */
  const MAP_SPAN := 32768
  /** Map bytes per 16 MiB hash block. */
  const HASH_BYTES := 512

  function Fill(v: bool): Byte { seq(8, i => v) }

  function Or(a: Byte, b: Byte): Byte { seq(8, i requires 0 <= i < 8 => a[i] || b[i]) }

  function And(a: Byte, b: Byte): Byte { seq(8, i requires 0 <= i < 8 => a[i] && b[i]) }

  function Not(a: Byte): Byte { seq(8, i requires 0 <= i < 8 => !a[i]) }

  /** (uint8_t)( a << k ) */
  function Shl(a: Byte, k: nat): Byte
    requires k <= 8
  {
    seq(8, i requires 0 <= i < 8 => i >= k && a[i - k])
  }

  /** Block b is marked in map m. */
  predicate Has(m: seq<Byte>, b: nat) { b / 8 < |m| && m[b / 8][b % 8] }

  /** Mask of the blocks of the first map byte that are not before file offset start. */
  function FirstMask(start: nat): (fb: Byte)
    ensures forall i :: 0 <= i < 8 ==> (fb[i] <==> i >= start / BLOCK % 8)
  {
    Shl(Fill(true), start / BLOCK % 8)
  }

  /** Mask of the blocks of the last map byte that begin before file offset end. */
  function LastMask(end: nat): (lb: Byte)
    requires end > 0
    ensures forall i :: 0 <= i < 8 ==> (lb[i] <==> i <= (end - 1) / BLOCK % 8)
  {
    Not(Shl(Fill(true), (end - 1) / BLOCK % 8 + 1))
  }

  /** Block i of map byte pos lies in the aligned file range [start, end). */
  predicate InRange(pos: nat, i: nat, start: nat, end: nat) { start / BLOCK <= 8 * pos + i < end / BLOCK }

  /** The blocks of map byte pos that lie in the aligned file range [start, end). */
  predicate Selects(mask: Byte, pos: nat, start: nat, end: nat) {
    forall i :: 0 <= i < 8 ==> (mask[i] <==> InRange(pos, i, start, end))
  }

  predicate AlignedRange(start: nat, end: nat) { start < end && start % BLOCK == 0 && end % BLOCK == 0 }

  /** The masks of the code select exactly the blocks of the range. */
  lemma Masks(start: nat, end: nat)
    requires AlignedRange(start, end)
    ensures var f, l := start / MAP_SPAN, (end - 1) / MAP_SPAN;
      && f <= l
      && (f == l ==> Selects(And(FirstMask(start), LastMask(end)), f, start, end))
      && (f < l ==> Selects(FirstMask(start), f, start, end) && Selects(LastMask(end), l, start, end))
      && (forall pos :: f < pos < l ==> Selects(Fill(true), pos, start, end))
      && (forall pos: nat :: pos < f || pos > l ==> Selects(Fill(false), pos, start, end))
  {
    var s, e := start / BLOCK, end / BLOCK;
    assert start == BLOCK * s && end == BLOCK * e && (end - 1) / BLOCK == e - 1;
    assert start / MAP_SPAN == s / 8 && (end - 1) / MAP_SPAN == (e - 1) / 8;
  }

  /** Set or clear the selected blocks of one byte; was says whether a block was added. */
  function Apply(b: Byte, mask: Byte, set_: bool): Byte { if set_ then Or(b, mask) else And(b, Not(mask)) }

  predicate AddsBlock(b: Byte, mask: Byte) { Or(b, mask) != b }

  lemma AddsBlockMeans(b: Byte, mask: Byte)
    ensures AddsBlock(b, mask) <==> exists i :: 0 <= i < 8 && mask[i] && !b[i]
  {
  }

  /** Byte pos of the map was updated for the range. */
  ghost predicate ByteUpdated(m: seq<Byte>, m': seq<Byte>, pos: nat, start: nat, end: nat, set_: bool) {
    |m'| == |m| && (pos < |m| ==> forall i :: 0 <= i < 8 ==>
      m'[pos][i] == if InRange(pos, i, start, end) then set_ else m[pos][i])
  }

  lemma ApplyUpdates(b: Byte, mask: Byte, pos: nat, start: nat, end: nat, set_: bool)
    requires Selects(mask, pos, start, end)
    ensures forall i :: 0 <= i < 8 ==>
      Apply(b, mask, set_)[i] == if InRange(pos, i, start, end) then set_ else b[i]
  {
  }

  /** All bytes updated means: exactly the blocks of the range changed. */
  lemma BytesToBlocks(m: seq<Byte>, m': seq<Byte>, start: nat, end: nat, set_: bool)
    requires |m'| == |m| && end <= MAP_SPAN * |m|
    requires forall pos :: 0 <= pos < |m| ==> ByteUpdated(m, m', pos, start, end, set_)
    ensures forall b: nat :: Has(m', b) == if start / BLOCK <= b < end / BLOCK then set_ else Has(m, b)
  {
    forall b: nat ensures Has(m', b) == if start / BLOCK <= b < end / BLOCK then set_ else Has(m, b) {
      var pos := b / 8;
      assert b == 8 * pos + b % 8;
      if pos < |m| { assert ByteUpdated(m, m', pos, start, end, set_); }
    }
  }

  /** Some block of map byte pos lies in the range and is not marked. */
  predicate Missing(m: seq<Byte>, pos: nat, start: nat, end: nat) {
    pos < |m| && exists i :: 0 <= i < 8 && InRange(pos, i, start, end) && !m[pos][i]
  }

  lemma MissingBlocks(m: seq<Byte>, start: nat, end: nat)
    requires end <= MAP_SPAN * |m|
    ensures (exists pos: nat :: Missing(m, pos, start, end))
       <==> (exists b: nat :: start / BLOCK <= b < end / BLOCK && !Has(m, b))
  {
    if pos: nat :| Missing(m, pos, start, end) {
      var i :| 0 <= i < 8 && InRange(pos, i, start, end) && !m[pos][i];
      assert !Has(m, 8 * pos + i);
    }
    if b: nat :| start / BLOCK <= b < end / BLOCK && !Has(m, b) {
      assert b == 8 * (b / 8) + b % 8;
      assert Missing(m, b / 8, start, end);
    }
  }

  /** `image_isRangeCachedUnsafe`: true exactly when every block of the range is marked. */
  method IsRangeCached(map_: array<Byte>, start: nat, end: nat) returns (cached: bool)
    requires AlignedRange(start, end) && end <= MAP_SPAN * map_.Length
    ensures cached <==> forall b: nat :: start / BLOCK <= b < end / BLOCK ==> Has(map_[..], b)
  {
    Masks(start, end);
    MissingBlocks(map_[..], start, end);
    var f, l := start / MAP_SPAN, (end - 1) / MAP_SPAN;
    var fb, lb := FirstMask(start), LastMask(end);
    if f == l {
      cached := And(map_[f], And(fb, lb)) == And(fb, lb);
      ContainsMeans(map_[..], And(fb, lb), f, start, end);
      assert cached <==> !Missing(map_[..], f, start, end);
    } else {
      cached := And(map_[f], fb) == fb;
      ContainsMeans(map_[..], fb, f, start, end);
      if cached {
        cached := And(map_[l], lb) == lb;
        ContainsMeans(map_[..], lb, l, start, end);
        if cached { cached := MiddleCached(map_, f, l, start, end); }
      }
    }
  }

  lemma ContainsMeans(m: seq<Byte>, mask: Byte, pos: nat, start: nat, end: nat)
    requires pos < |m| && Selects(mask, pos, start, end)
    ensures And(m[pos], mask) == mask <==> !Missing(m, pos, start, end)
  {
  }

  method MiddleCached(map_: array<Byte>, f: nat, l: nat, start: nat, end: nat) returns (cached: bool)
    requires f < l < map_.Length
    requires forall pos :: f < pos < l ==> Selects(Fill(true), pos, start, end)
    ensures cached <==> forall pos :: f < pos < l ==> !Missing(map_[..], pos, start, end)
  {
    cached := true;
    var pos := f + 1;
    while pos < l
      invariant f < pos <= l && cached
      invariant forall q :: f < q < pos ==> !Missing(map_[..], q, start, end)
    {
      ContainsMeans(map_[..], Fill(true), pos, start, end);
      assert map_[pos] == And(map_[pos], Fill(true));
      if map_[pos] != Fill(true) { return false; }
      pos := pos + 1;
    }
  }
}
