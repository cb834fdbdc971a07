/**
 What `uplink_requestInternal` answers and sends, in the numbers of the protocol and of `uplink.c`: which
 requests are refused, what a new entry asks for, and when a prefetch goes out behind it.
 */
module UplinkAsks {
  import opened Options
  import opened Units
  import opened UplinkQueue

  /** Entry k is the one a request for [start, end) attaches to. */
  ghost predicate AttachesTo(entries: seq<Entry>, k: nat, start: nat, end: nat) {
    && k < |entries| && entries[k].from <= start && end <= entries[k].to
    && forall i :: 0 <= i < k ==> entries[i].from > start || entries[i].to < end
  }

  lemma AttachesToFirst(entries: seq<Entry>, k: nat, start: nat, end: nat)
    ensures AttachesTo(entries, k, start, end) <==> k < |entries| && k == FirstCovering(entries, start, end)
  {
    var f := FirstCovering(entries, start, end);
    if AttachesTo(entries, k, start, end) {
      assert Covers(entries[k], start, end);
      assert f <= k;
    }
    if k < |entries| && k == f {
      forall i | 0 <= i < k ensures entries[i].from > start || entries[i].to < end {
        assert !Covers(entries[i], start, end);
      }
    }
  }

  ghost predicate NoneCovers(entries: seq<Entry>, start: nat, end: nat) {
    forall i :: 0 <= i < |entries| ==> entries[i].from > start || entries[i].to < end
  }

  lemma NoneCoversFirst(entries: seq<Entry>, start: nat, end: nat)
    ensures NoneCovers(entries, start, end) <==> FirstCovering(entries, start, end) == |entries|
  {
    var f := FirstCovering(entries, start, end);
    if f == |entries| {
      forall i | 0 <= i < |entries| ensures entries[i].from > start || entries[i].to < end {
        assert !Covers(entries[i], start, end);
      }
    } else {
      assert Covers(entries[f], start, end);
    }
  }

  lemma AdmissibleExactlyIf(cfg: Config, q: Queue, ask: Ask)
    requires ask.hops < 256
    ensures Admissible(cfg, q, ask) <==>
      !(ask.hops >= 128 && cfg.bgr != Complete) && !q.shutdown && ask.length <= cfg.maxPayload
  {
  }

  /** The entry the request would attach to does not take it. */
  ghost predicate IsBlocked(q: Queue, ask: Ask) {
    exists k: nat :: AttachesTo(q.entries, k, ask.start, ask.start + ask.length) && Blocks(q.entries[k], ask)
  }

  lemma BlockedExactlyIf(q: Queue, ask: Ask)
    ensures var f := FirstCovering(q.entries, ask.start, ask.start + ask.length);
      IsBlocked(q, ask) <==> f < |q.entries| && Blocks(q.entries[f], ask)
  {
    var end := ask.start + ask.length;
    var f := FirstCovering(q.entries, ask.start, end);
    AttachesToFirst(q.entries, f, ask.start, end);
    if k: nat :| AttachesTo(q.entries, k, ask.start, end) && Blocks(q.entries[k], ask) {
      AttachesToFirst(q.entries, k, ask.start, end);
    }
  }

  /**
   Exactly these requests are refused: background replication at a server that does not replicate in full,
   any after shutdown, too long ones, new ones to a full queue, and clients whose entry asks for the same
   range with fewer hops, which would be a circle, or has 32 clients already.
   */
  lemma RefusedExactlyIf(cfg: Config, size: nat, q: Queue, ask: Ask, addr: nat, preAddr: nat)
    requires ask.hops < 256
    ensures Request(cfg, size, q, ask, addr, preAddr).Refused? <==>
      || (ask.hops >= 128 && cfg.bgr != Complete)
      || q.shutdown || ask.length > cfg.maxPayload
      || (NoneCovers(q.entries, ask.start, ask.start + ask.length) && q.len >= 500)
      || (ask.client.Some? && IsBlocked(q, ask))
  {
    NoneCoversFirst(q.entries, ask.start, ask.start + ask.length);
    AdmissibleExactlyIf(cfg, q, ask);
    BlockedExactlyIf(q, ask);
  }

  predicate Blocks(e: Entry, ask: Ask) {
    || ((ask.hops + 1) % 256 > e.hops && e.from == ask.start && e.to == ask.start + ask.length)
    || |e.clients| >= 32
  }

  // ----- hop counts -----

  /**
   The hop count that goes out: one more hop in the low six bits; a replication request is marked by bit 7,
   or by bit 6 if this server pretends to be a client.
   */
  lemma HopsInBits(cfg: Config, ask: Ask)
    requires ask.hops < 256
    ensures var h, next := Hops(cfg, ask), (ask.hops + 1) % 256;
      && h < 256 && h % 64 == next % 64
      && (ask.client.Some? ==> h == next)
      && (ask.client.None? && !cfg.pretendClient ==> h / 128 == 1 && h / 64 % 2 == next / 64 % 2)
      && (ask.client.None? && cfg.pretendClient ==> h / 64 % 2 == 1 && h / 128 == next / 128)
  {
    var next := (ask.hops + 1) % 256;
    assert next / 128 % 2 == next / 128 && next / 64 % 2 == next / 64 - next / 128 * 2;
  }

  /** A replication request marked as such is refused by every server further up that does not replicate in full. */
  lemma ReplicationStopsAtPartial(cfg: Config, size: nat, q: Queue, ask: Ask, addr: nat, preAddr: nat,
      cfg': Config, size': nat, q': Queue, ask': Ask, addr': nat, preAddr': nat)
    requires ask.client.None? && !cfg.pretendClient && ask.hops < 256 && cfg'.bgr != Complete
    requires Request(cfg, size, q, ask, addr, preAddr).Accepted?
    requires Request(cfg, size, q, ask, addr, preAddr).wires != []
    requires ask'.hops == Request(cfg, size, q, ask, addr, preAddr).wires[0].hops
    ensures Request(cfg', size', q', ask', addr', preAddr').Refused?
  {
    HopsInBits(cfg, ask);
    RefusedExactlyIf(cfg', size', q', ask', addr', preAddr');
  }

  // ----- how far a range is widened -----

  /**
   The exact end of a widened range: the wanted length rounded up to a block; or, in hash-block mode,
   the last 16 MiB border within it, if there is one behind the old end; but never past the image.
   */
  lemma ExtendExact(size: nat, bgr: Bgr, start: nat, end: nat, wanted: nat)
    requires start <= end <= size && size % 4096 == 0 && end - start < wanted < 0x1_0000_0000
    ensures var r, limit := Extend(size, bgr, start, end, wanted), start + wanted;
      var border := limit - limit % 0x100_0000;
      && (bgr == HashBlock && border > end ==> r == if border <= size then border else size)
      && (bgr != HashBlock || border <= end ==>
            if limit <= size then limit <= r < limit + 4096 && r % 4096 == 0 else r == size)
  {
    var limit := start + wanted;
    var border := limit - limit % 0x100_0000;
    assert border == limit / HASH_BLOCK * HASH_BLOCK;
    SameHashBlock(end, limit);
    RoundUpExact(size);
    RoundUpExact(border);
    Rounding(limit);
    if limit <= size { RoundUpWithin(limit, size); }
  }

  lemma SameHashBlock(end: nat, limit: nat)
    requires end <= limit
    ensures end / HASH_BLOCK != limit / HASH_BLOCK <==> limit / HASH_BLOCK * HASH_BLOCK > end
    ensures limit / HASH_BLOCK * HASH_BLOCK % BLOCK == 0
  {
    if end / HASH_BLOCK != limit / HASH_BLOCK { CutBack(end, limit); }
  }

  /** Three times the length in 32 bits: it wraps from 1431655766 bytes on, and is 0 for no length a setting admits. */
  lemma Triple(length: nat)
    requires 0 < length <= MAX_SETTING
    ensures 0 < length * 3 % 0x1_0000_0000
    ensures length * 3 % 0x1_0000_0000 == (if length <= 1431655765 then 3 * length else 3 * length - 0x1_0000_0000)
  {
    if length <= 1431655765 {
      assert length * 3 < WORD32;
    } else {
      assert WORD32 < length * 3 < 2 * WORD32;
    }
  }

  /**
   A prefetch is made exactly for reads that end before the image does, and asks for three times the
   read, as far as 32 bits hold that, or the limit if that is less.
   */
  lemma PrefetchExact(cfg: Config, size: nat, ask: Ask)
    requires Sane(cfg) && 0 < ask.length && ask.End() <= size && size % 4096 == 0 && ask.length <= cfg.maxPrefetch
    ensures var end, wanted := ask.start + ask.length,
        Min(if ask.length <= 1431655765 then 3 * ask.length else 3 * ask.length - 0x1_0000_0000, cfg.maxPrefetch);
      && wanted > 0 && PrefetchEnd(cfg, size, ask) == Extend(size, cfg.bgr, end, end, wanted)
      && (end < PrefetchEnd(cfg, size, ask) <==> end < size)
  {
    Triple(ask.length);
    var end, wanted := ask.start + ask.length,
      Min(if ask.length <= 1431655765 then 3 * ask.length else 3 * ask.length - 0x1_0000_0000, cfg.maxPrefetch);
    assert PrefetchEnd(cfg, size, ask) == Extend(size, cfg.bgr, end, end, wanted);
    ExtendsAtAll(size, cfg.bgr, end, wanted);
  }

  lemma ExtendsAtAll(size: nat, bgr: Bgr, end: nat, wanted: nat)
    requires end <= size && size % BLOCK == 0 && 0 < wanted < WORD32
    ensures end < Extend(size, bgr, end, end, wanted) <==> end < size
  {
    ExtendGrows(size, bgr, end, end, wanted);
    ExtendReaches(size, bgr, end, end, wanted);
  }

  /**
   How far a new entry reaches: to the end of the read or, for clients, the smallest size to ask for,
   on a block border.
   */
  lemma RequestEndExact(cfg: Config, size: nat, ask: Ask)
    requires Sane(cfg) && size % 4096 == 0 && ask.End() <= size && ask.length <= cfg.maxPayload
    ensures var from, end, to := ask.start / 4096 * 4096, ask.start + ask.length, RequestEnd(cfg, size, ask);
      && to % 4096 == 0
      && (ask.client.None? || end - from >= cfg.minRequestSize ==> end <= to < end + 4096)
      && (ask.client.Some? && end - from < cfg.minRequestSize ==>
            to == Extend(size, cfg.bgr, from, end, cfg.minRequestSize))
  {
    Rounding(ask.start);
    var from, end := RoundDown(ask.start), ask.End();
    ExtendGrows(size, cfg.bgr, from, end, cfg.minRequestSize);
    if ask.client.Some? && end - from < cfg.minRequestSize {
      RoundUpExact(Extend(size, cfg.bgr, from, end, cfg.minRequestSize));
    } else {
      Rounding(end);
    }
  }

  /** The entry a request without one to attach to makes. */
  function NewEntry(cfg: Config, size: nat, q: Queue, ask: Ask, addr: nat): Entry {
    Entry(addr, q.lastId + 1, ask.start / 4096 * 4096, RequestEnd(cfg, size, ask), Hops(cfg, ask), true, [])
  }

  /**
   A prefetch goes out: a client reads on, unmarked, to the end of the entry but not of the image, and
   not too much.
   */
  predicate Prefetches(cfg: Config, size: nat, e: Entry, isNew: bool, ask: Ask) {
    && ask.client.Some? && (ask.hops + 1) % 256 < 64 && ask.start + ask.length == e.to < size
    && ask.length <= cfg.maxPrefetch
    && (isNew || e.clients == [] || e.clients[0].owner.data == ask.client.value.data)
  }

  function WithClient(entries: seq<Entry>, k: nat, ask: Ask): seq<Entry>
    requires k < |entries|
  {
    if ask.client.None? then entries else
    entries[k := entries[k].(clients := entries[k].clients
      + [Waiter(ask.client.value, ask.handle, ask.start, ask.start + ask.length)])]
  }

  /** The prefetch behind entry k, marked by bit 6. */
  function PrefetchOf(cfg: Config, size: nat, lastId: nat, ask: Ask, preAddr: nat): Entry {
    Entry(preAddr, lastId + 1, ask.start + ask.length, PrefetchEnd(cfg, size, ask), (ask.hops + 1) % 256 + 64, true, [])
  }

  /** The queue and the headers sent, when entry k of `entries` is the one to attach to. */
  ghost predicate Leaves(cfg: Config, size: nat, entries: seq<Entry>, k: nat, isNew: bool, q: Queue, ask: Ask,
      preAddr: nat, q': Queue, wires: seq<Wire>)
    requires k < |entries|
  {
    var mine, all := if isNew then [entries[k]] else [], WithClient(entries, k, ask);
    var pre := PrefetchOf(cfg, size, q.lastId + |mine|, ask, preAddr);
    var prefetches := Prefetches(cfg, size, entries[k], isNew, ask);
    var sent := mine + if prefetches then [pre] else [];
    && q'.entries == (if prefetches then all[..k + 1] + [pre] + all[k + 1..] else all)
    && q'.len == q.len + |sent| && q'.lastId == q.lastId + |sent| && q'.shutdown == q.shutdown
    && |wires| == |sent|
    && forall i :: 0 <= i < |sent| ==> wires[i] == Wire(sent[i].handle, sent[i].from, sent[i].to, sent[i].hops)
  }

  lemma FinishLeaves(cfg: Config, size: nat, q0: Queue, q: Queue, k: nat, isNew: bool, ask: Ask, preAddr: nat)
    requires Sane(cfg) && Fits(size, ask) && size % 4096 == 0 && k < |q.entries|
    requires if isNew then q == q0.(entries := q.entries, len := q0.len + 1, lastId := q0.lastId + 1) else q == q0
    ensures var r := Finish(cfg, size, q, k, isNew, ask, preAddr);
      Leaves(cfg, size, q.entries, k, isNew, q0, ask, preAddr, r.q, r.wires)
  {
    PrefetchesExactlyIf(cfg, size, q.entries[k], isNew, ask);
    if Prefetches(cfg, size, q.entries[k], isNew, ask) {
      var pre := PrefetchOf(cfg, size, q.lastId, ask, preAddr);
      var q' := q.(entries := q.entries[..k + 1] + [pre] + q.entries[k + 1..], len := q.len + 1,
                   lastId := q.lastId + 1);
      assert q' == InsertAfter(q, k, preAddr, ask.End(), PrefetchEnd(cfg, size, ask),
        Flag(Hops(cfg, ask), FLAG_PREFETCH));
      AddedInFront(q.entries, k, pre, ask);
    }
  }

  lemma AddedInFront(entries: seq<Entry>, k: nat, pre: Entry, ask: Ask)
    requires k < |entries| && ask.client.Some?
    ensures var all := WithClient(entries, k, ask);
      WithClient(entries[..k + 1] + [pre] + entries[k + 1..], k, ask) == all[..k + 1] + [pre] + all[k + 1..]
  {
  }

  lemma PrefetchesExactlyIf(cfg: Config, size: nat, e: Entry, isNew: bool, ask: Ask)
    requires Sane(cfg) && Fits(size, ask) && size % 4096 == 0
    ensures WantsPrefetch(cfg, e, isNew, ask, Hops(cfg, ask)) && ask.End() < PrefetchEnd(cfg, size, ask) <==>
      Prefetches(cfg, size, e, isNew, ask)
    ensures Prefetches(cfg, size, e, isNew, ask) ==>
      Flag(Hops(cfg, ask), FLAG_PREFETCH) == (ask.hops + 1) % 256 + 64
  {
    if ask.client.Some? {
      HopsInBits(cfg, ask);
      SmallHops(Hops(cfg, ask));
      if ask.length <= cfg.maxPrefetch { PrefetchExact(cfg, size, ask); }
    }
  }

  lemma SmallHops(h: nat)
    requires h < 256
    ensures h / 64 % 4 == 0 <==> h < 64
    ensures h < 64 ==> Flag(h, FLAG_PREFETCH) == h + 64
  {
  }

  /**
   Everything an accepted request does: it attaches to the first entry that covers it, or makes the one
   above at the end of the queue; puts the prefetch behind it if there is to be one; and sends exactly
   what it made. A replication request for something already asked for does nothing.
   */
  lemma AcceptedLeaves(cfg: Config, size: nat, q: Queue, ask: Ask, addr: nat, preAddr: nat, k: nat)
    requires Sane(cfg) && Fits(size, ask) && size % 4096 == 0
    requires Request(cfg, size, q, ask, addr, preAddr).Accepted?
    requires NoneCovers(q.entries, ask.start, ask.End()) || AttachesTo(q.entries, k, ask.start, ask.End())
    ensures var r := Request(cfg, size, q, ask, addr, preAddr);
      if NoneCovers(q.entries, ask.start, ask.End()) then
        Leaves(cfg, size, q.entries + [NewEntry(cfg, size, q, ask, addr)], |q.entries|, true, q, ask, preAddr,
          r.q, r.wires)
      else if ask.client.None? then r == Accepted(q, [])
      else Leaves(cfg, size, q.entries, k, false, q, ask, preAddr, r.q, r.wires)
  {
    NoneCoversFirst(q.entries, ask.start, ask.End());
    if NoneCovers(q.entries, ask.start, ask.End()) {
      FinishLeaves(cfg, size, q, Append(cfg, size, q, ask, addr), |q.entries|, true, ask, preAddr);
    } else {
      AttachesToFirst(q.entries, k, ask.start, ask.End());
      if ask.client.Some? { FinishLeaves(cfg, size, q, q, k, false, ask, preAddr); }
    }
  }
}
