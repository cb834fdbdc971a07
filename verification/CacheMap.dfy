/** Updating and querying the cache map of an image (`image.c`). */
module CacheMap {
  import opened CacheBits
  import opened Units

  /** 4 KiB blocks per 16 MiB hash block. */
  const HASH_BLOCKS := 4096

  /** IMGSIZE_TO_MAPBYTES */
  function MapBytes(size: nat): nat { (size + MAP_SPAN - 1) / MAP_SPAN }

  /** Block b lies wholly inside, or touches, the file range [start, end). */
  predicate Inside(b: nat, start: nat, end: nat) { start <= BLOCK * b && BLOCK * (b + 1) <= end }

  predicate Touches(b: nat, start: nat, end: nat) { BLOCK * b < end && start < BLOCK * (b + 1) }

  /** The map bytes q with q < pos or q >= l have been updated; the others are as in m. */
  ghost predicate UpdatedOutside(m: seq<Byte>, m': seq<Byte>, pos: nat, l: nat, start: nat, end: nat, set_: bool) {
    && |m'| == |m|
    && (forall q: nat :: q < |m| && (q < pos || q >= l) ==> ByteUpdated(m, m', q, start, end, set_))
    && (forall q: nat :: pos <= q < l && q < |m| ==> m'[q] == m[q])
  }

  /** None of these bytes misses a block of the range. */
  ghost predicate NoneMissing(m: seq<Byte>, pos: nat, l: nat, start: nat, end: nat) {
    forall q: nat :: q < pos || q >= l ==> !Missing(m, q, start, end)
  }

  /** The masked update of all map bytes of an aligned range; tells whether a block was added. */
  method UpdateRange(map_: array<Byte>, start: nat, end: nat, set_: bool) returns (added: bool)
    requires AlignedRange(start, end) && end <= MAP_SPAN * map_.Length
    modifies map_
    ensures forall b: nat :: Has(map_[..], b) == if start / BLOCK <= b < end / BLOCK then set_
      else old(Has(map_[..], b))
    ensures added <==> set_ && exists b: nat :: start / BLOCK <= b < end / BLOCK && !old(Has(map_[..], b))
  {
    ghost var m := map_[..];
    Masks(start, end);
    var f, l := start / MAP_SPAN, (end - 1) / MAP_SPAN;
    var fb, lb := FirstMask(start), LastMask(end);
    Elsewhere(m, f, l, start, end);
    if f == l {
      added := UpdateByte(map_, f, And(fb, lb), start, end, set_);
      assert UpdatedOutside(m, map_[..], 0, 0, start, end, set_);
      assert added <==> set_ && !NoneMissing(m, 0, 0, start, end);
    } else {
      var fo := UpdateByte(map_, f, fb, start, end, set_);
      ghost var m1 := map_[..];
      var lo := UpdateByte(map_, l, lb, start, end, set_);
      assert Missing(m1, l, start, end) == Missing(m, l, start, end);
      assert forall q: nat :: q < |m| && q != l ==> map_[..][q] == m1[q];
      assert UpdatedOutside(m, map_[..], f + 1, l, start, end, set_);
      added := UpdateMiddle(map_, m, f + 1, l, start, end, set_, fo || lo);
    }
    assert NoneMissing(m, 0, 0, start, end) <==> !exists q: nat :: Missing(m, q, start, end);
    BytesToBlocks(m, map_[..], start, end, set_);
    MissingBlocks(m, start, end);
  }

  /** Map bytes outside the range miss nothing and need no update. */
  lemma Elsewhere(m: seq<Byte>, f: nat, l: nat, start: nat, end: nat)
    requires forall pos: nat :: pos < f || pos > l ==> Selects(Fill(false), pos, start, end)
    ensures forall q: nat :: q < f || q > l ==> !Missing(m, q, start, end)
    ensures forall q: nat, m', set_ :: |m'| == |m| && q < |m| && (q < f || q > l) && m'[q] == m[q] ==>
      ByteUpdated(m, m', q, start, end, set_)
  {
    forall q: nat, i: nat | (q < f || q > l) && i < 8 ensures !InRange(q, i, start, end) {
      assert Selects(Fill(false), q, start, end);
      assert !Fill(false)[i];
    }
  }

  /** Everything in between the first and the last byte. */
  method UpdateMiddle(map_: array<Byte>, ghost m: seq<Byte>, from: nat, l: nat, start: nat, end: nat, set_: bool,
    some: bool)
    returns (added: bool)
    requires from <= l < map_.Length
    requires forall pos: nat :: from <= pos < l ==> Selects(Fill(true), pos, start, end)
    requires UpdatedOutside(m, map_[..], from, l, start, end, set_)
    requires some <==> set_ && !NoneMissing(m, from, l, start, end)
    modifies map_
    ensures UpdatedOutside(m, map_[..], 0, 0, start, end, set_)
    ensures added <==> set_ && !NoneMissing(m, 0, 0, start, end)
  {
    added := some;
    var pos := from;
    while pos < l
      invariant from <= pos <= l
      invariant UpdatedOutside(m, map_[..], pos, l, start, end, set_)
      invariant added <==> set_ && !NoneMissing(m, pos, l, start, end)
    {
      ghost var was := map_[..];
      var more := UpdateByte(map_, pos, Fill(true), start, end, set_);
      assert forall q: nat :: q < |m| && q != pos ==> map_[..][q] == was[q];
      assert was[pos] == m[pos];
      assert Missing(was, pos, start, end) == Missing(m, pos, start, end);
      forall q: nat | q < |m| && (q < pos + 1 || q >= l) ensures ByteUpdated(m, map_[..], q, start, end, set_) {
        if q == pos {
          assert ByteUpdated(was, map_[..], pos, start, end, set_);
        } else {
          assert ByteUpdated(m, was, q, start, end, set_);
        }
      }
      assert NoneMissing(m, pos + 1, l, start, end)
        <==> NoneMissing(m, pos, l, start, end) && !Missing(m, pos, start, end);
      added := added || more;
      pos := pos + 1;
    }
  }

  /** One `atomic_fetch_or` or `atomic_fetch_and`. */
  method UpdateByte(map_: array<Byte>, pos: nat, mask: Byte, ghost start: nat, ghost end: nat, set_: bool)
    returns (added: bool)
    requires pos < map_.Length && Selects(mask, pos, start, end)
    modifies map_
    ensures ByteUpdated(old(map_[..]), map_[..], pos, start, end, set_)
    ensures forall q :: 0 <= q < map_.Length && q != pos ==> map_[q] == old(map_[q])
    ensures added <==> set_ && Missing(old(map_[..]), pos, start, end)
  {
    added := set_ && AddsBlock(map_[pos], mask);
    AddsBlockMeans(map_[pos], mask);
    ApplyUpdates(map_[pos], mask, pos, start, end, set_);
    map_[pos] := Apply(map_[pos], mask, set_);
  }

  /** Every block of hash block h that the image has is marked. */
  predicate HashBlockFull(m: seq<Byte>, h: nat, size: nat) {
    forall b: nat :: HASH_BLOCKS * h <= b < HASH_BLOCKS * (h + 1) && BLOCK * b < size ==> Has(m, b)
  }

  /** `image_isHashBlockComplete` with a map. */
  method IsHashBlockComplete(map_: array<Byte>, h: nat, size: nat) returns (complete: bool)
    requires size <= MAP_SPAN * map_.Length
    ensures complete <==> HashBlockFull(map_[..], h, size)
  {
    if (h + 1) * HASH_BLOCK <= size {
      complete := AllFull(map_, HASH_BYTES * h, HASH_BYTES * (h + 1));
      assert forall b: nat :: HASH_BLOCKS * h <= b < HASH_BLOCKS * (h + 1) ==> BLOCK * b < size;
    } else {
      var b := HASH_BLOCKS * h;
      while BLOCK * b < size
        invariant HASH_BLOCKS * h <= b
        invariant forall c: nat :: HASH_BLOCKS * h <= c < b ==> Has(map_[..], c)
        decreases size - BLOCK * b
      {
        if !map_[b / 8][b % 8] {
          assert b < HASH_BLOCKS * (h + 1) && !Has(map_[..], b);
          return false;
        }
        b := b + 1;
      }
      complete := true;
    }
  }

  method AllFull(map_: array<Byte>, from: nat, to: nat) returns (full: bool)
    requires from <= to <= map_.Length
    ensures full <==> forall b: nat :: 8 * from <= b < 8 * to ==> Has(map_[..], b)
  {
    var i := from;
    while i < to
      invariant from <= i <= to
      invariant forall b: nat :: 8 * from <= b < 8 * i ==> Has(map_[..], b)
    {
      if map_[i] != Fill(true) {
        ghost var k :| 0 <= k < 8 && !map_[i][k];
        assert !Has(map_[..], 8 * i + k);
        return false;
      }
      i := i + 1;
    }
    full := true;
  }

  class Image {
    const virtualSize: nat
    const realSize: nat
    var cache: array?<Byte>
    var hasCrcList: bool
    /** Blocks of the current map were invalidated since it was last saved. */
    var dirty: bool

    ghost predicate Valid()
      reads this
    {
      && realSize <= virtualSize < realSize + BLOCK && virtualSize % BLOCK == 0
      && (cache != null ==> cache.Length == MapBytes(virtualSize))
    }

    constructor (realSize: nat, hasCrcList: bool)
      ensures Valid() && this.realSize == realSize && this.hasCrcList == hasCrcList && cache == null && !dirty
    {
      this.realSize, this.virtualSize := realSize, RoundUp(realSize);
      this.cache, this.hasCrcList, this.dirty := null, hasCrcList, false;
    }

    /** Block b counts as locally available: it is marked, or there is no map. */
    ghost predicate Available(b: nat)
      reads this, cache
    {
      cache == null || Has(cache[..], b)
    }

    ghost predicate HashBlockAvailable(h: nat)
      reads this, cache
    {
      cache == null || HashBlockFull(cache[..], h, realSize)
    }

    /** `allocCacheMap`: a new map, unless there already is one; its dirty flag is not initialised. */
    method AllocCacheMap(complete: bool)
      requires Valid()
      modifies this`cache, this`dirty
      ensures Valid() && cache != null
      ensures old(cache) != null ==> cache == old(cache) && dirty == old(dirty)
      ensures old(cache) == null ==> fresh(cache) && forall b: nat :: BLOCK * b < virtualSize ==>
        Has(cache[..], b) == complete
    {
      var fresh_ := new Byte[MapBytes(virtualSize)](i => Fill(complete));
      if cache == null {
        cache := fresh_;
        dirty := *;
      }
    }

    /**
     `image_updateCachemap`. Setting adds exactly the blocks wholly inside the range; clearing removes
     exactly the blocks it touches. The hash blocks for which `integrity_check` is called are returned:
     all of them are complete, and every hash block that this call completed is among them. A call that
     clears any block leaves the map to be saved.
     */
    method UpdateCachemap(start: nat, end: nat, set_: bool) returns (checks: seq<nat>)
      requires Valid() && start <= end <= virtualSize
      modifies this`cache, this`dirty, cache
      ensures Valid()
      ensures dirty == (old(dirty) || (!set_ && exists b: nat :: Touches(b, start, end)))
      ensures forall b: nat :: BLOCK * b < virtualSize ==>
        (Available(b) <==> if set_ then old(Available(b)) || Inside(b, start, end)
                           else old(Available(b)) && !Touches(b, start, end))
      ensures !(set_ && hasCrcList) ==> checks == []
      ensures forall h :: h in checks ==> HashBlockAvailable(h)
      ensures set_ && hasCrcList ==>
        forall h: nat :: HashBlockAvailable(h) && !old(HashBlockAvailable(h)) ==> h in checks
    {
      checks := [];
      var s := if set_ then RoundUp(start) else start / BLOCK * BLOCK;
      var e := if set_ then end / BLOCK * BLOCK else RoundUp(end);
      assert s < e && !set_ ==> Touches(start / BLOCK, start, end);
      if s >= e { return; }
      if cache == null {
        if set_ { return; }
        AllocCacheMap(true);
      }
      ghost var m := cache[..];
      assert forall b: nat :: BLOCK * b < virtualSize ==> (old(Available(b)) <==> Has(m, b));
      checks := UpdateAligned(s, e, set_);
    }

    /** The part of it that finds a map, on a range of whole blocks. */
    method UpdateAligned(s: nat, e: nat, set_: bool) returns (checks: seq<nat>)
      requires Valid() && cache != null && AlignedRange(s, e) && e <= virtualSize
      modifies this`dirty, cache
      ensures Valid() && dirty == (old(dirty) || !set_)
      ensures forall b: nat :: Has(cache[..], b) == if s / BLOCK <= b < e / BLOCK then set_ else old(Has(cache[..], b))
      ensures !(set_ && hasCrcList) ==> checks == []
      ensures forall h :: h in checks ==> HashBlockAvailable(h)
      ensures set_ && hasCrcList ==>
        forall h: nat :: HashBlockAvailable(h) && !old(HashBlockAvailable(h)) ==> h in checks
    {
      checks := [];
      ghost var m := cache[..];
      dirty := dirty || !set_;
      var added := UpdateRange(cache, s, e, set_);
      ghost var m' := cache[..];
      if added && hasCrcList {
        checks := FullHashBlocks(cache, s / HASH_BLOCK, (e + HASH_BLOCK - 1) / HASH_BLOCK, realSize);
        CompletedIsChecked(m, m', s, e, realSize);
      } else if set_ && hasCrcList {
        assert forall b: nat :: Has(m', b) == Has(m, b);
      }
    }

    /** `image_isComplete`: drops the map of a complete image. */
    method IsComplete() returns (complete: bool)
      requires Valid()
      modifies this`cache
      ensures Valid()
      ensures complete <==> virtualSize > 0 && forall b: nat :: BLOCK * b < virtualSize ==> old(Available(b))
      ensures cache == if complete then null else old(cache)
    {
      if virtualSize == 0 { return false; }
      if cache == null { return true; }
      var bytes := MapBytes(virtualSize);
      complete := AllFull(cache, 0, bytes - 1);
      if complete {
        var inLast := virtualSize / BLOCK % 8;
        var mask := Fill(true);
        if inLast != 0 { mask := LowMask(inLast); }
        complete := And(cache[bytes - 1], mask) == mask;
        LastByte(cache[..], mask, bytes - 1, virtualSize);
        if !complete {
          ghost var b: nat :| 8 * (bytes - 1) <= b && BLOCK * b < virtualSize && !Has(cache[..], b);
          assert !Available(b);
        }
      } else {
        ghost var b: nat :| b < 8 * (bytes - 1) && !Has(cache[..], b);
        assert BLOCK * b < virtualSize && !Available(b);
      }
      if complete {
        assert forall b: nat :: BLOCK * b < virtualSize ==> Has(cache[..], b);
        cache := null;
      }
    }
  }

  /** A hash block that became complete has a newly marked block, so it overlaps the range. */
  lemma CompletedIsChecked(m: seq<Byte>, m': seq<Byte>, s: nat, e: nat, size: nat)
    requires AlignedRange(s, e)
    requires forall b: nat :: Has(m', b) ==> Has(m, b) || s / BLOCK <= b < e / BLOCK
    ensures forall h: nat :: HashBlockFull(m', h, size) && !HashBlockFull(m, h, size) ==>
      s / HASH_BLOCK <= h < (e + HASH_BLOCK - 1) / HASH_BLOCK
  {
  }

  /** The mask built by `last_byte |= 1 << j` for the n low blocks. */
  method LowMask(n: nat) returns (mask: Byte)
    requires n <= 8
    ensures forall i :: 0 <= i < 8 ==> (mask[i] <==> i < n)
  {
    mask := Fill(false);
    for j := 0 to n
      invariant forall i :: 0 <= i < 8 ==> (mask[i] <==> i < j)
    {
      mask := Or(mask, Shl([true, false, false, false, false, false, false, false], j));
    }
  }

  lemma LastByte(m: seq<Byte>, mask: Byte, last: nat, size: nat)
    requires size > 0 && size % BLOCK == 0 && last == MapBytes(size) - 1 < |m|
    requires forall i :: 0 <= i < 8 ==> (mask[i] <==> size / BLOCK % 8 == 0 || i < size / BLOCK % 8)
    ensures And(m[last], mask) == mask <==> forall b: nat :: 8 * last <= b && BLOCK * b < size ==> Has(m, b)
  {
    assert Selects(mask, last, BLOCK * (8 * last), size);
    ContainsMeans(m, mask, last, BLOCK * (8 * last), size);
    if And(m[last], mask) == mask {
      forall b: nat | 8 * last <= b && BLOCK * b < size ensures Has(m, b) {
        assert b == 8 * last + b % 8;
      }
    } else {
      var i :| 0 <= i < 8 && InRange(last, i, BLOCK * (8 * last), size) && !m[last][i];
      assert !Has(m, 8 * last + i);
    }
  }

  /** The hash blocks of [from, to) that are complete. */
  method FullHashBlocks(map_: array<Byte>, from: nat, to: nat, size: nat) returns (hs: seq<nat>)
    requires size <= MAP_SPAN * map_.Length
    ensures forall h :: h in hs <==> from <= h < to && HashBlockFull(map_[..], h, size)
  {
    hs := [];
    var h := from;
    while h < to
      invariant from <= h && (h <= to || h == from)
      invariant forall g :: g in hs <==> from <= g < h && HashBlockFull(map_[..], g, size)
    {
      var full := IsHashBlockComplete(map_, h, size);
      if full { hs := hs + [h]; }
      h := h + 1;
    }
  }
}
