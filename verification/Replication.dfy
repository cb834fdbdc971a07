/** `findNextIncompleteHashBlock` of `uplink.c`: where background replication by hash block goes next. */
module Replication {
  import opened CacheBits
  import opened Units

  /** A full map byte; the last one also counts as full once its blocks were requested. */
  predicate Full(m: seq<Byte>, flag: bool, i: nat)
    requires i < |m|
  {
    m[i] == Fill(true) || (i + 1 == |m| && flag)
  }

  predicate Empty(m: seq<Byte>, flag: bool, i: nat)
    requires i < |m|
  {
    m[i] == Fill(false) && !Full(m, flag, i)
  }

  /** Byte i belongs to hash block h of the map. */
  predicate In(m: seq<Byte>, h: nat, i: nat) { i < |m| && i / HASH_BYTES == h }

  /** Hash block h is neither completely replicated nor completely empty. */
  ghost predicate Mixed(m: seq<Byte>, flag: bool, h: nat) {
    && !(forall i: nat :: In(m, h, i) ==> Full(m, flag, i))
    && !(forall i: nat :: In(m, h, i) ==> Empty(m, flag, i))
  }

  ghost predicate FirstNonFull(m: seq<Byte>, flag: bool, h: nat, i: nat) {
    In(m, h, i) && !Full(m, flag, i) && forall k: nat :: In(m, h, k) && k < i ==> Full(m, flag, k)
  }

  function NumHashBlocks(m: seq<Byte>): nat { (|m| + HASH_BYTES - 1) / HASH_BYTES }

  /** Where the search starts: the hash block of the given map index, or the first one past the end. */
  function StartBlock(m: seq<Byte>, index: nat): nat {
    if index / HASH_BYTES * HASH_BYTES < |m| then index / HASH_BYTES else 0
  }

  /** How many hash blocks are visited before h. */
  function Turn(m: seq<Byte>, index: nat, h: nat): int {
    if h >= StartBlock(m, index) then h - StartBlock(m, index) else h - StartBlock(m, index) + NumHashBlocks(m)
  }

  /** The hash block visited before h. */
  function Before(m: seq<Byte>, h: nat): int { if h == 0 then NumHashBlocks(m) - 1 else h - 1 }

  /** h is the first mixed hash block in the order of the search. */
  ghost predicate FirstMixed(m: seq<Byte>, flag: bool, index: nat, h: nat) {
    && Mixed(m, flag, h)
    && forall g: nat :: g < NumHashBlocks(m) && Turn(m, index, g) < Turn(m, index, h) ==> !Mixed(m, flag, g)
  }

  /**
   The guard of the branch that goes wrong: the first byte of h is partly filled, and the hash block
   visited before h starts with an empty byte, whose index is still remembered.
   */
  predicate Stale(m: seq<Byte>, flag: bool, index: nat, h: nat) {
    && Turn(m, index, h) > 0
    && HASH_BYTES * h < |m| && !Full(m, flag, HASH_BYTES * h) && m[HASH_BYTES * h] != Fill(false)
    && 0 <= HASH_BYTES * Before(m, h) < |m| && m[HASH_BYTES * Before(m, h)] == Fill(false)
  }

  /** What is returned when h is the first mixed hash block. */
  ghost predicate Answer(m: seq<Byte>, flag: bool, index: nat, h: nat, retval: int) {
    if Stale(m, flag, index, h) then retval == HASH_BYTES * Before(m, h)
    else retval >= 0 && FirstNonFull(m, flag, h, retval)
  }

  /** Map byte k is among the first p - start visited ones. */
  predicate Visited(n: nat, start: nat, p: nat, k: nat) { start <= k < p || k + n < p }

  /** No hash block whose last byte was visited is mixed. */
  ghost predicate Settled(m: seq<Byte>, flag: bool, start: nat, p: nat) {
    forall h: nat, k: nat :: In(m, h, k) && (k + 1 == |m| || (k + 1) % HASH_BYTES == 0) && Visited(|m|, start, p, k)
      ==> !Mixed(m, flag, h)
  }

  /**
   What retval says when byte i is next. At the start of a hash block: the hash block visited before,
   if that starts with an empty byte. Inside: the bytes of this hash block before i are all full, or
   all empty and retval is the first of them.
   */
  ghost predicate Pending(m: seq<Byte>, flag: bool, j: nat, i: nat, retval: int)
    requires i < |m|
  {
    var c := i / HASH_BYTES * HASH_BYTES;
    if i != c then
      || (retval == -1 && forall k: nat :: c <= k < i ==> Full(m, flag, k))
      || (retval == c && forall k: nat :: c <= k < i ==> Empty(m, flag, k))
    else if j == 0 then retval == -1
    else
      var b := HASH_BYTES * Before(m, i / HASH_BYTES);
      0 <= b < |m| && retval == if m[b] == Fill(false) then b else -1
  }

  /** What the search makes of byte i: it stops with an answer, or goes on. */
  predicate Visits(m: seq<Byte>, flag: bool, i: nat, was: int, stop: bool, retval: int)
    requires i < |m|
  {
    var full, empty, first := Full(m, flag, i), m[i] == Fill(false), i % HASH_BYTES == 0;
    && stop == ((!empty && !full) || (!first && (if full then was != -1 else was == -1)))
    && retval == if stop then (if was == -1 then i else was)
                 else if first then (if empty then i else -1) else was
  }

  /** The step of the search at byte i. */
  method Visit(map_: array<Byte>, flag: bool, i: nat, retval: int) returns (stop: bool, retval': int)
    requires i < map_.Length
    ensures Visits(map_[..], flag, i, retval, stop, retval')
  {
    var isFull := map_[i] == Fill(true) || (i + 1 == map_.Length && flag);
    var isEmpty := map_[i] == Fill(false);
    stop, retval' := false, retval;
    if !isEmpty && !isFull {
      if retval == -1 { retval' := i; }
      stop := true;
    } else if i / HASH_BYTES * HASH_BYTES == i {
      retval' := if isEmpty then i else -1;
    } else if isFull {
      if retval != -1 { stop := true; }
    } else if isEmpty {
      if retval == -1 { stop, retval' := true, i; }
    }
  }

  /** `go` holds before each visited byte until the search stops, and `found` where it stops. */
  ghost predicate Guides(m: seq<Byte>, flag: bool, start: nat, go: (nat, int) -> bool, found: (nat, int) -> bool) {
    forall j: nat, was: int, stop: bool, retval: int ::
      start <= |m| && j < |m| && go(j, was) && Visits(m, flag, Index(start, j, |m|), was, stop, retval) ==>
        if stop then found(Index(start, j, |m|), retval) else go(j + 1, retval)
  }

  /** The loop of the search, for any facts that guide it. */
  method Walk(map_: array<Byte>, flag: bool, start: nat, ghost go: (nat, int) -> bool, ghost found: (nat, int) -> bool)
    returns (stop: bool, retval: int, i: nat)
    requires start <= map_.Length && go(0, -1) && Guides(map_[..], flag, start, go, found)
    ensures if stop then i < map_.Length && found(i, retval) else exists r :: go(map_.Length, r)
  {
    stop, retval, i := false, -1, 0;
    var j, n := 0, map_.Length;
    while j < n
      invariant 0 <= j <= n && go(j, retval)
    {
      var at := MapIndex(start, j, n);
      stop, retval := Visit(map_, flag, at, retval);
      if stop {
        i := at;
        return;
      }
      j := j + 1;
    }
    stop := false;
  }

  lemma SearchGuides(m: seq<Byte>, flag: bool, index: nat, go: (nat, int) -> bool, found: (nat, int) -> bool)
    requires index <= |m|
    requires forall j, r :: go(j, r) <==> Going(m, flag, index, j, r)
    requires forall i, r :: found(i, r) <==> Found(m, flag, index, i, r)
    ensures go(0, -1) && Guides(m, flag, index / HASH_BYTES * HASH_BYTES, go, found)
  {
    var start := index / HASH_BYTES * HASH_BYTES;
    forall j: nat, was: int, stop: bool, retval: int |
      start <= |m| && j < |m| && go(j, was) && Visits(m, flag, Index(start, j, |m|), was, stop, retval)
      ensures if stop then found(Index(start, j, |m|), retval) else go(j + 1, retval) {
      OneVisit(m, flag, index, j, Index(start, j, |m|), was, stop, retval);
    }
  }

  /** The state of the search when the byte of turn j is next. */
  ghost predicate Going(m: seq<Byte>, flag: bool, index: nat, j: nat, retval: int) {
    var start := index / HASH_BYTES * HASH_BYTES;
    && Settled(m, flag, start, start + j)
    && (j < |m| ==> Index(start, j, |m|) < |m| && Pending(m, flag, j, Index(start, j, |m|), retval))
  }

  /** The search stops at byte i with the answer for its hash block. */
  ghost predicate Found(m: seq<Byte>, flag: bool, index: nat, i: nat, retval: int) {
    retval != -1 && FirstMixed(m, flag, index, i / HASH_BYTES) && Answer(m, flag, index, i / HASH_BYTES, retval)
  }

  /** The search of `findNextIncompleteHashBlock` in a map. h is the hash block that stopped it. */
  method Search(map_: array<Byte>, flag: bool, index: nat) returns (retval: int, ghost h: nat)
    requires index <= map_.Length
    ensures retval == -1 <==> forall g: nat :: !Mixed(map_[..], flag, g)
    ensures retval != -1 ==> FirstMixed(map_[..], flag, index, h) && Answer(map_[..], flag, index, h, retval)
  {
    ghost var m := map_[..];
    ghost var go := (j: nat, r: int) => Going(m, flag, index, j, r);
    ghost var found := (i: nat, r: int) => Found(m, flag, index, i, r);
    SearchGuides(m, flag, index, go, found);
    var stop, i;
    stop, retval, i := Walk(map_, flag, index / HASH_BYTES * HASH_BYTES, go, found);
    h := i / HASH_BYTES;
    assert map_[..] == m;
    assert stop ==> retval != -1 && Mixed(m, flag, h);
    if !stop {
      AllSettled(m, flag, index / HASH_BYTES * HASH_BYTES);
      retval := -1;
    }
  }

  /** What a call comes to: a value, or an access through a null pointer. */
  datatype Outcome = Returns(value: int) | NullAccess

  /**
   `findNextIncompleteHashBlock`. Without a map the search is skipped, but the reference to the map is
   given back all the same: exactly then the call goes through a null pointer.
   */
  method FindNextIncompleteHashBlock(map_: array?<Byte>, flag: bool, index: nat) returns (r: Outcome, ghost h: nat)
    requires map_ != null ==> index <= map_.Length
    ensures r.NullAccess? <==> map_ == null
    ensures map_ != null ==> (r.value == -1 <==> forall g: nat :: !Mixed(map_[..], flag, g))
    ensures map_ != null && r.value != -1 ==>
      FirstMixed(map_[..], flag, index, h) && Answer(map_[..], flag, index, h, r.value)
  {
    var retval := -1;
    h := 0;
    if map_ != null {
      retval, h := Search(map_, flag, index);
    }
    r := if map_ == null then NullAccess else Returns(retval);
  }

  function Index(start: nat, j: nat, n: nat): nat { if start + j < n then start + j else start + j - n }

  /** The index is computed modulo the map length. */
  method MapIndex(start: nat, j: nat, n: nat) returns (i: nat)
    requires start <= n && j < n
    ensures i == Index(start, j, n) < n
  {
    if start + j >= n {
      assert (start + j - n) % n == start + j - n;
    }
    i := (start + j) % n;
  }

  lemma OneVisit(m: seq<Byte>, flag: bool, index: nat, j: nat, i: nat, was: int, stop: bool, retval: int)
    requires index <= |m| && j < |m|
    requires var start := index / HASH_BYTES * HASH_BYTES;
      Settled(m, flag, start, start + j) && i == Index(start, j, |m|) && i < |m|
    requires Pending(m, flag, j, i, was) && Visits(m, flag, i, was, stop, retval)
    ensures stop ==>
      FirstMixed(m, flag, index, i / HASH_BYTES) && Answer(m, flag, index, i / HASH_BYTES, retval) && retval != -1
    ensures !stop ==>
      var start := index / HASH_BYTES * HASH_BYTES;
      && Settled(m, flag, start, start + j + 1)
      && (j + 1 < |m| ==> Index(start, j + 1, |m|) < |m| && Pending(m, flag, j + 1, Index(start, j + 1, |m|), retval))
  {
    if stop {
      FoundMixed(m, flag, index, j, i, was, retval);
    } else {
      StillSettled(m, flag, index / HASH_BYTES * HASH_BYTES, j, i, was, retval);
    }
  }

  /** The search stops at i: its hash block is mixed, none before it is, and the answer is as stated. */
  lemma FoundMixed(m: seq<Byte>, flag: bool, index: nat, j: nat, i: nat, was: int, retval: int)
    requires index <= |m| && j < |m|
    requires var start := index / HASH_BYTES * HASH_BYTES;
      Settled(m, flag, start, start + j) && i == Index(start, j, |m|) && i < |m|
    requires Pending(m, flag, j, i, was)
    requires retval == if was == -1 then i else was
    requires var partial := !Full(m, flag, i) && m[i] != Fill(false);
      || partial
      || (i % HASH_BYTES != 0 && (if Full(m, flag, i) then was != -1 else was == -1))
    ensures FirstMixed(m, flag, index, i / HASH_BYTES)
    ensures Answer(m, flag, index, i / HASH_BYTES, retval) && retval != -1
  {
    var h, c := i / HASH_BYTES, i / HASH_BYTES * HASH_BYTES;
    assert In(m, h, i) && In(m, h, c);
    assert Mixed(m, flag, h) by {
      if i != c { assert was == -1 ==> Full(m, flag, c) && !Full(m, flag, i); }
      if i != c { assert was == c ==> Empty(m, flag, c) && !Empty(m, flag, i); }
    }
    forall g: nat | g < NumHashBlocks(m) && Turn(m, index, g) < Turn(m, index, h) ensures !Mixed(m, flag, g) {
      EarlierIsVisited(m, index, j, i, g);
      var k := if HASH_BYTES * (g + 1) <= |m| then HASH_BYTES * (g + 1) - 1 else |m| - 1;
      assert In(m, g, k);
    }
    FoundAnswer(m, flag, index, j, i, was, retval);
  }

  lemma FoundAnswer(m: seq<Byte>, flag: bool, index: nat, j: nat, i: nat, was: int, retval: int)
    requires index <= |m| && j < |m| && i == Index(index / HASH_BYTES * HASH_BYTES, j, |m|) && i < |m|
    requires Pending(m, flag, j, i, was) && retval == if was == -1 then i else was
    requires i % HASH_BYTES == 0 ==> !Full(m, flag, i) && m[i] != Fill(false)
    requires was == -1 ==> !Full(m, flag, i)
    ensures Answer(m, flag, index, i / HASH_BYTES, retval) && retval != -1
  {
    var h, c := i / HASH_BYTES, i / HASH_BYTES * HASH_BYTES;
    if i == c {
      TurnOfStart(m, index, j, i);
    } else if was == -1 {
      assert Full(m, flag, c);
    } else {
      assert Empty(m, flag, c);
    }
  }

  /** At the start of a hash block, another one was visited before exactly if anything was. */
  lemma TurnOfStart(m: seq<Byte>, index: nat, j: nat, i: nat)
    requires index <= |m| && j < |m| && i == Index(index / HASH_BYTES * HASH_BYTES, j, |m|) && i < |m|
    requires i % HASH_BYTES == 0
    ensures Turn(m, index, i / HASH_BYTES) > 0 <==> j > 0
  {
  }

  lemma EarlierIsVisited(m: seq<Byte>, index: nat, j: nat, i: nat, g: nat)
    requires index <= |m| && j < |m|
    requires i == Index(index / HASH_BYTES * HASH_BYTES, j, |m|) && i < |m|
    requires g < NumHashBlocks(m) && Turn(m, index, g) < Turn(m, index, i / HASH_BYTES)
    ensures var start := index / HASH_BYTES * HASH_BYTES;
      forall k: nat :: In(m, g, k) ==> Visited(|m|, start, start + j, k)
  {
  }

  /** The search goes on past i. */
  lemma StillSettled(m: seq<Byte>, flag: bool, start: nat, j: nat, i: nat, was: int, retval: int)
    requires start <= |m| && start % HASH_BYTES == 0 && j < |m| && i == Index(start, j, |m|)
    requires Settled(m, flag, start, start + j) && i < |m| && Pending(m, flag, j, i, was)
    requires Full(m, flag, i) || m[i] == Fill(false)
    requires if i % HASH_BYTES == 0 then retval == (if m[i] == Fill(false) then i else -1)
             else retval == was && (if Full(m, flag, i) then was == -1 else was != -1)
    ensures Settled(m, flag, start, start + j + 1)
    ensures j + 1 < |m| ==> Index(start, j + 1, |m|) < |m| && Pending(m, flag, j + 1, Index(start, j + 1, |m|), retval)
  {
    if i + 1 == |m| || (i + 1) % HASH_BYTES == 0 {
      BlockDone(m, flag, j, i, was, retval);
      NextStart(m, start, j, i);
    } else {
      SameBlock(m, flag, j, i, was, retval);
      assert Index(start, j + 1, |m|) == i + 1;
    }
    forall g: nat, k: nat | In(m, g, k) && (k + 1 == |m| || (k + 1) % HASH_BYTES == 0)
                            && Visited(|m|, start, start + j + 1, k)
      ensures !Mixed(m, flag, g)
    {
      if k != i { assert Visited(|m|, start, start + j, k); }
    }
  }

  lemma SameBlock(m: seq<Byte>, flag: bool, j: nat, i: nat, was: int, retval: int)
    requires i + 1 < |m| && Pending(m, flag, j, i, was) && (i + 1) % HASH_BYTES != 0
    requires Full(m, flag, i) || m[i] == Fill(false)
    requires if i % HASH_BYTES == 0 then retval == (if m[i] == Fill(false) then i else -1)
             else retval == was && (if Full(m, flag, i) then was == -1 else was != -1)
    ensures Pending(m, flag, j + 1, i + 1, retval)
  {
    assert Fill(true)[0] != Fill(false)[0];
    var c := i / HASH_BYTES * HASH_BYTES;
    assert (i + 1) / HASH_BYTES == i / HASH_BYTES;
    if retval == -1 {
      assert forall k: nat :: c <= k < i + 1 ==> Full(m, flag, k);
    } else {
      assert retval == c && forall k: nat :: c <= k < i + 1 ==> Empty(m, flag, k);
    }
  }

  /** A hash block whose last byte i did not stop the search is not mixed; retval tells its first byte. */
  lemma BlockDone(m: seq<Byte>, flag: bool, j: nat, i: nat, was: int, retval: int)
    requires i < |m| && Pending(m, flag, j, i, was) && (i + 1 == |m| || (i + 1) % HASH_BYTES == 0)
    requires Full(m, flag, i) || m[i] == Fill(false)
    requires if i % HASH_BYTES == 0 then retval == (if m[i] == Fill(false) then i else -1)
             else retval == was && (if Full(m, flag, i) then was == -1 else was != -1)
    ensures !Mixed(m, flag, i / HASH_BYTES)
    ensures var c := i / HASH_BYTES * HASH_BYTES; retval == if m[c] == Fill(false) then c else -1
  {
    var h, c := i / HASH_BYTES, i / HASH_BYTES * HASH_BYTES;
    assert forall k: nat :: In(m, h, k) ==> c <= k <= i;
    assert Fill(true)[0] != Fill(false)[0];
    if i != c { assert if Full(m, flag, i) then Full(m, flag, c) else Empty(m, flag, c); }
  }

  /** After the last byte of a hash block, the next byte starts a hash block that comes right after it. */
  lemma NextStart(m: seq<Byte>, start: nat, j: nat, i: nat)
    requires start <= |m| && start % HASH_BYTES == 0 && j + 1 <= |m| && i == Index(start, j, |m|) && i < |m|
    requires i + 1 == |m| || (i + 1) % HASH_BYTES == 0
    ensures j + 1 < |m| ==>
      var i' := Index(start, j + 1, |m|);
      i' < |m| && i' % HASH_BYTES == 0 && Before(m, i' / HASH_BYTES) == i / HASH_BYTES
  {
  }

  lemma AllSettled(m: seq<Byte>, flag: bool, start: nat)
    requires start <= |m| && Settled(m, flag, start, start + |m|)
    ensures forall h: nat :: !Mixed(m, flag, h)
  {
    forall h: nat ensures !Mixed(m, flag, h) {
      if i: nat :| In(m, h, i) {
        var k := if HASH_BYTES * (h + 1) <= |m| then HASH_BYTES * (h + 1) - 1 else |m| - 1;
        assert In(m, h, k) && Visited(|m|, start, start + |m|, k);
      }
    }
  }

  /**
   The search returns the first incomplete byte of the first mixed hash block exactly when the guard
   does not hold; otherwise it returns the start of a hash block that is not mixed.
   */
  lemma MeetsSearchExactlyIf(m: seq<Byte>, flag: bool, index: nat, h: nat, retval: int)
    requires index <= |m| && FirstMixed(m, flag, index, h) && Answer(m, flag, index, h, retval)
    ensures FirstNonFull(m, flag, h, retval) <==> !Stale(m, flag, index, h)
    ensures Stale(m, flag, index, h) ==> 0 <= retval < |m| && !Mixed(m, flag, retval / HASH_BYTES)
  {
  }

  /** A map whose first hash block is empty and whose second begins with a partly filled byte: the answer is 0. */
  lemma StaleExample(m: seq<Byte>)
    requires |m| == 2 * HASH_BYTES
    requires forall i :: 0 <= i < HASH_BYTES ==> m[i] == Fill(false)
    requires m[HASH_BYTES] == [true, false, false, false, false, false, false, false]
    ensures FirstMixed(m, false, 0, 1) && Stale(m, false, 0, 1)
    ensures forall retval :: Answer(m, false, 0, 1, retval) <==> retval == 0
  {
    assert !m[HASH_BYTES][1] && m[HASH_BYTES][0];
    assert Fill(true)[1] && !Fill(false)[0];
    assert In(m, 1, HASH_BYTES);
    forall i: nat | In(m, 0, i) ensures Empty(m, false, i) { assert !Fill(false)[0]; }
  }
}
