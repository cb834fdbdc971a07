/**
 The request queue of an uplink (`uplink.c`): what one lock section does to it. Client reads are
 merged into upstream requests, which are widened, prefetched, resent, answered or cancelled.
 */
module UplinkQueue {
  import opened Options
  import opened Sums
  import opened Units

  const WORD32 := 0x1_0000_0000
  const MAX_QUEUE := 500
  const MAX_CLIENTS := 32
  const FLAG_BGR := 0x80
  const FLAG_PREFETCH := 0x40

  datatype Bgr = Disabled | Complete | HashBlock

  datatype Config = Config(maxPayload: nat, minRequestSize: nat, maxPrefetch: nat, bgr: Bgr, pretendClient: bool)

  /** Who is called back: network clients and the FUSE module use different callbacks. */
  datatype Callback = ClientCallback | FuseCallback

  datatype Owner = Owner(data: nat, callback: Callback)

  /** A read waiting for an entry: passed back to the callback. */
  datatype Waiter = Waiter(owner: Owner, handle: nat, from: nat, to: nat)

  /** A queued upstream request; `addr` is the address of its node. */
  datatype Entry = Entry(addr: nat, handle: nat, from: nat, to: nat, hops: nat, sent: bool, clients: seq<Waiter>)

  datatype Queue = Queue(entries: seq<Entry>, len: nat, lastId: nat, shutdown: bool)

  /** A call of `uplink_requestInternal`; without a client it comes from background replication. */
  datatype Ask = Ask(client: Option<Owner>, handle: nat, start: nat, length: nat, hops: nat) {
    function End(): nat { start + length }
  }

  /** A request header as it goes out to the uplink server. */
  datatype Wire = Wire(handle: nat, from: nat, to: nat, hops: nat)

  datatype Outcome = Refused | Accepted(q: Queue, wires: seq<Wire>)

  /** `extendRequest`: the new end of a range that should be at least `wanted` long. */
  function Extend(size: nat, bgr: Bgr, start: nat, end: nat, wanted: nat): nat
    requires start <= end
  {
    if (end - start) % WORD32 >= wanted then end else
    var limit := start + wanted;
    var e := if bgr.HashBlock? && end / HASH_BLOCK != limit / HASH_BLOCK
      then limit / HASH_BLOCK * HASH_BLOCK else limit;
    RoundUp(if e > size then size else e)
  }

  /** The end of a range cut back to the hash block it would reach into. */
  lemma CutBack(end: nat, limit: nat)
    requires end <= limit && end / HASH_BLOCK != limit / HASH_BLOCK
    ensures end < limit / HASH_BLOCK * HASH_BLOCK <= limit < limit / HASH_BLOCK * HASH_BLOCK + HASH_BLOCK
    ensures limit / HASH_BLOCK * HASH_BLOCK % BLOCK == 0
  {
    assert limit / HASH_BLOCK >= end / HASH_BLOCK + 1;
  }

  lemma ExtendGrows(size: nat, bgr: Bgr, start: nat, end: nat, wanted: nat)
    requires start <= end <= size && size % BLOCK == 0 && end - start < WORD32
    ensures end <= Extend(size, bgr, start, end, wanted) <= size
    ensures end - start < wanted ==> Extend(size, bgr, start, end, wanted) % BLOCK == 0
  {
    if end - start < wanted {
      var limit := start + wanted;
      var e := limit;
      if bgr.HashBlock? && end / HASH_BLOCK != limit / HASH_BLOCK {
        CutBack(end, limit);
        e := limit / HASH_BLOCK * HASH_BLOCK;
      }
      var c := if e > size then size else e;
      Rounding(c);
      RoundUpWithin(c, size);
    }
  }

  /** A widened range is as long as wanted, rounded up to a block, unless the image or a hash block ends first. */
  lemma ExtendReaches(size: nat, bgr: Bgr, start: nat, end: nat, wanted: nat)
    requires start <= end <= size && size % BLOCK == 0 && end - start < wanted < WORD32
    ensures var r := Extend(size, bgr, start, end, wanted);
      && r < start + wanted + BLOCK
      && (|| r >= start + wanted || r == size
          || (bgr.HashBlock? && r % HASH_BLOCK == 0 && r > end && start + wanted < r + HASH_BLOCK))
  {
    var limit := start + wanted;
    RoundUpExact(size);
    if bgr.HashBlock? && end / HASH_BLOCK != limit / HASH_BLOCK {
      CutBack(end, limit);
      RoundUpExact(limit / HASH_BLOCK * HASH_BLOCK);
    } else {
      Rounding(limit);
    }
  }

  /** What `parse32u` lets a setting be. */
  const MAX_SETTING := 0x7fff_ffff

  /** Settings as the parser admits them. */
  predicate Sane(cfg: Config) {
    cfg.maxPayload <= MAX_SETTING && cfg.maxPrefetch <= MAX_SETTING && cfg.minRequestSize <= MAX_SETTING
  }

  /** Under any setting the parser admits, the request sent for an accepted read covers the whole read. */
  lemma WideningCovers(cfg: Config, size: nat, ask: Ask)
    requires Sane(cfg) && size % BLOCK == 0 && ask.End() <= size && ask.length <= cfg.maxPayload
    ensures RoundDown(ask.start) <= ask.start && ask.End() <= RequestEnd(cfg, size, ask) <= size
    ensures RoundDown(ask.start) % BLOCK == 0 && RequestEnd(cfg, size, ask) % BLOCK == 0
  {
    Rounding(ask.start);
    ExtendGrows(size, cfg.bgr, RoundDown(ask.start), ask.End(), cfg.minRequestSize);
    var e := if ask.client.Some? && cfg.minRequestSize != 0
      then Extend(size, cfg.bgr, RoundDown(ask.start), ask.End(), cfg.minRequestSize) else ask.End();
    Rounding(e);
    RoundUpWithin(e, size);
  }

  /** What the callers check: a non-empty range inside the image. */
  predicate Fits(size: nat, ask: Ask) { 0 < ask.length && ask.End() <= size && ask.hops < 256 }

  function Flag(hops: nat, flag: nat): nat
    requires flag > 0
  {
    if hops / flag % 2 == 1 then hops else hops + flag
  }

  /** The hop count a forwarded request carries. */
  function Hops(cfg: Config, ask: Ask): nat {
    var h := (ask.hops + 1) % 256;
    if ask.client.Some? then h else Flag(h, if cfg.pretendClient then FLAG_PREFETCH else FLAG_BGR)
  }

  predicate Admissible(cfg: Config, q: Queue, ask: Ask) {
    !(ask.hops / FLAG_BGR % 2 == 1 && !cfg.bgr.Complete?) && !q.shutdown && ask.length <= cfg.maxPayload
  }

  function RequestEnd(cfg: Config, size: nat, ask: Ask): nat {
    Rounding(ask.start);
    RoundUp(if ask.client.Some? && cfg.minRequestSize != 0
            then Extend(size, cfg.bgr, RoundDown(ask.start), ask.End(), cfg.minRequestSize) else ask.End())
  }

  predicate Covers(e: Entry, start: nat, end: nat) { e.from <= start && end <= e.to }

  /** The first entry that covers the range, or the length of the queue. */
  function FirstCovering(entries: seq<Entry>, start: nat, end: nat): (k: nat)
    ensures k <= |entries| && (forall i :: 0 <= i < k ==> !Covers(entries[i], start, end))
    ensures k < |entries| ==> Covers(entries[k], start, end)
  {
    if entries == [] || Covers(entries[0], start, end) then 0 else 1 + FirstCovering(entries[1..], start, end)
  }

  predicate WantsPrefetch(cfg: Config, e: Entry, isNew: bool, ask: Ask, h: nat) {
    && ask.client.Some? && (isNew || e.clients == [] || e.clients[0].owner.data == ask.client.value.data)
    && h / FLAG_PREFETCH % 4 == 0 && ask.End() == e.to && ask.length <= cfg.maxPrefetch
  }

  function PrefetchEnd(cfg: Config, size: nat, ask: Ask): nat {
    var triple := ask.length * 3 % WORD32;
    Extend(size, cfg.bgr, ask.End(), ask.End(), if triple < cfg.maxPrefetch then triple else cfg.maxPrefetch)
  }

  /** A prefetch starts where the read ends and is at most three times as long as it, and the limit, up to a block. */
  lemma PrefetchAdjoins(cfg: Config, size: nat, ask: Ask)
    requires Sane(cfg) && Fits(size, ask) && size % BLOCK == 0 && ask.length <= cfg.maxPrefetch
    ensures ask.End() <= PrefetchEnd(cfg, size, ask) <= size
    ensures PrefetchEnd(cfg, size, ask) - ask.End() < ask.length * 3 + BLOCK
    ensures PrefetchEnd(cfg, size, ask) - ask.End() < cfg.maxPrefetch + BLOCK
  {
    var triple := ask.length * 3 % WORD32;
    assert triple <= ask.length * 3;
    var wanted := if triple < cfg.maxPrefetch then triple else cfg.maxPrefetch;
    ExtendGrows(size, cfg.bgr, ask.End(), ask.End(), wanted);
    if wanted > 0 {
      ExtendReaches(size, cfg.bgr, ask.End(), ask.End(), wanted);
    }
  }

  function Append(cfg: Config, size: nat, q: Queue, ask: Ask, addr: nat): Queue {
    q.(entries := q.entries
      + [Entry(addr, q.lastId + 1, RoundDown(ask.start), RequestEnd(cfg, size, ask), Hops(cfg, ask), true, [])],
       len := q.len + 1, lastId := q.lastId + 1)
  }

  function InsertAfter(q: Queue, k: nat, addr: nat, from: nat, to: nat, h: nat): Queue
    requires k < |q.entries|
  {
    q.(entries := q.entries[..k + 1] + [Entry(addr, q.lastId + 1, from, to, h, true, [])] + q.entries[k + 1..],
       len := q.len + 1, lastId := q.lastId + 1)
  }

  function AddClient(q: Queue, k: nat, ask: Ask): Queue
    requires k < |q.entries|
  {
    if ask.client.None? then q else
    var w := Waiter(ask.client.value, ask.handle, ask.start, ask.End());
    q.(entries := q.entries[k := q.entries[k].(clients := q.entries[k].clients + [w])])
  }

  function WireOf(e: Entry): Wire { Wire(e.handle, e.from, e.to, e.hops) }

  /** The end of the lock section, once entry k is the one to attach to: prefetch, then add the client. */
  function Finish(cfg: Config, size: nat, q: Queue, k: nat, isNew: bool, ask: Ask, addr: nat): Outcome
    requires k < |q.entries|
  {
    var h := Hops(cfg, ask);
    var mine := if isNew then [WireOf(q.entries[k])] else [];
    if WantsPrefetch(cfg, q.entries[k], isNew, ask, h) && ask.End() < PrefetchEnd(cfg, size, ask) then
      var q' := InsertAfter(q, k, addr, ask.End(), PrefetchEnd(cfg, size, ask), Flag(h, FLAG_PREFETCH));
      Accepted(AddClient(q', k, ask), mine + [WireOf(q'.entries[k + 1])])
    else
      Accepted(AddClient(q, k, ask), mine)
  }

  /** `uplink_requestInternal`, with the addresses of the nodes it may allocate. */
  function Request(cfg: Config, size: nat, q: Queue, ask: Ask, addr: nat, preAddr: nat): Outcome {
    if !Admissible(cfg, q, ask) then Refused else
    var k := FirstCovering(q.entries, ask.start, ask.End());
    if k == |q.entries| then
      if q.len >= MAX_QUEUE then Refused else Finish(cfg, size, Append(cfg, size, q, ask, addr), k, true, ask, preAddr)
    else if ask.client.None? then Accepted(q, [])
    else if Hops(cfg, ask) > q.entries[k].hops && q.entries[k].from == ask.start && q.entries[k].to == ask.End()
      then Refused
    else if |q.entries[k].clients| >= MAX_CLIENTS then Refused
    else Finish(cfg, size, q, k, false, ask, preAddr)
  }

  // ----- what every lock section keeps -----

  ghost predicate EntryOk(size: nat, e: Entry) {
    && e.from % BLOCK == 0 && e.to % BLOCK == 0 && e.from < e.to <= size && |e.clients| <= MAX_CLIENTS
    && forall c :: 0 <= c < |e.clients| ==> e.from <= e.clients[c].from < e.clients[c].to <= e.to
  }

  ghost predicate QInv(size: nat, q: Queue) {
    && q.len == |q.entries|
    && (forall i :: 0 <= i < |q.entries| ==> EntryOk(size, q.entries[i]) && q.entries[i].handle <= q.lastId)
    && (forall i, j :: 0 <= i < j < |q.entries| ==>
          q.entries[i].handle != q.entries[j].handle && q.entries[i].addr != q.entries[j].addr)
  }

  ghost predicate FreeAddr(q: Queue, addr: nat) { forall i :: 0 <= i < |q.entries| ==> q.entries[i].addr != addr }

  predicate Same(e: Entry, e': Entry) {
    e.handle == e'.handle && e.addr == e'.addr && e.from == e'.from && e.to == e'.to
  }

  /** Every entry of q' was in q, at the same place of memory and for the same range, or has a newer handle. */
  ghost predicate Continues(q: Queue, q': Queue) {
    && q.lastId <= q'.lastId
    && forall j :: 0 <= j < |q'.entries| ==>
      (q'.entries[j].handle > q.lastId || exists i :: 0 <= i < |q.entries| && Same(q.entries[i], q'.entries[j]))
  }

  // ----- how many waiters there are -----

  ghost function One(p: Waiter -> bool): Waiter -> int { w => if p(w) then 1 else 0 }

  ghost function OfEntry(p: Waiter -> bool): Entry -> int { (e: Entry) => SumBy(e.clients, One(p)) }

  /** How many waiters of the queue satisfy p. */
  ghost function Waiting(p: Waiter -> bool, q: Queue): int { SumBy(q.entries, OfEntry(p)) }

  // ----- Request -----

  lemma AppendKeeps(cfg: Config, size: nat, q: Queue, ask: Ask, addr: nat)
    requires QInv(size, q) && FreeAddr(q, addr) && Sane(cfg) && Fits(size, ask) && size % BLOCK == 0
    requires ask.length <= cfg.maxPayload
    ensures QInv(size, Append(cfg, size, q, ask, addr)) && Continues(q, Append(cfg, size, q, ask, addr))
    ensures Covers(Append(cfg, size, q, ask, addr).entries[|q.entries|], ask.start, ask.End())
  {
    WideningCovers(cfg, size, ask);
    var q' := Append(cfg, size, q, ask, addr);
    forall j | 0 <= j < |q'.entries| && q'.entries[j].handle <= q.lastId
      ensures exists i :: 0 <= i < |q.entries| && Same(q.entries[i], q'.entries[j]) {
      assert Same(q.entries[j], q'.entries[j]);
    }
  }

  lemma InsertKeeps(size: nat, q: Queue, k: nat, addr: nat, from: nat, to: nat, h: nat)
    requires QInv(size, q) && FreeAddr(q, addr) && k < |q.entries|
    requires from % BLOCK == 0 && to % BLOCK == 0 && from < to <= size
    ensures QInv(size, InsertAfter(q, k, addr, from, to, h)) && Continues(q, InsertAfter(q, k, addr, from, to, h))
  {
  }

  lemma AddKeeps(size: nat, q: Queue, k: nat, ask: Ask)
    requires QInv(size, q) && k < |q.entries| && 0 < ask.length && Covers(q.entries[k], ask.start, ask.End())
    requires |q.entries[k].clients| < MAX_CLIENTS
    ensures QInv(size, AddClient(q, k, ask)) && Continues(q, AddClient(q, k, ask))
  {
  }

  lemma AddCounts(p: Waiter -> bool, q: Queue, k: nat, ask: Ask)
    requires k < |q.entries| && ask.client.Some?
    ensures Waiting(p, AddClient(q, k, ask)) == Waiting(p, q)
      + One(p)(Waiter(ask.client.value, ask.handle, ask.start, ask.End()))
  {
    var w := Waiter(ask.client.value, ask.handle, ask.start, ask.End());
    var e := q.entries[k].(clients := q.entries[k].clients + [w]);
    SumUpdate(q.entries, k, e, OfEntry(p));
    SumConcat(q.entries[k].clients, [w], One(p));
  }

  lemma ContinuesOn(q: Queue, q': Queue, q'': Queue)
    requires Continues(q, q') && Continues(q', q'')
    ensures Continues(q, q'')
  {
  }

  lemma FinishKeeps(cfg: Config, size: nat, q: Queue, k: nat, isNew: bool, ask: Ask, addr: nat)
    requires QInv(size, q) && FreeAddr(q, addr) && Fits(size, ask) && size % BLOCK == 0 && k < |q.entries|
    requires Covers(q.entries[k], ask.start, ask.End()) && |q.entries[k].clients| < MAX_CLIENTS
    ensures var q' := Finish(cfg, size, q, k, isNew, ask, addr).q;
      QInv(size, q') && Continues(q, q') && q'.shutdown == q.shutdown
  {
    var h := Hops(cfg, ask);
    if WantsPrefetch(cfg, q.entries[k], isNew, ask, h) && ask.End() < PrefetchEnd(cfg, size, ask) {
      assert q.entries[k].to % BLOCK == 0;
      var triple := ask.length * 3 % WORD32;
      ExtendGrows(size, cfg.bgr, ask.End(), ask.End(), if triple < cfg.maxPrefetch then triple else cfg.maxPrefetch);
      var q1 := InsertAfter(q, k, addr, ask.End(), PrefetchEnd(cfg, size, ask), Flag(h, FLAG_PREFETCH));
      InsertKeeps(size, q, k, addr, ask.End(), PrefetchEnd(cfg, size, ask), Flag(h, FLAG_PREFETCH));
      assert q1.entries[k] == q.entries[k];
      AddKeeps(size, q1, k, ask);
      ContinuesOn(q, q1, AddClient(q1, k, ask));
    } else {
      AddKeeps(size, q, k, ask);
    }
  }

  lemma FinishCounts(cfg: Config, size: nat, p: Waiter -> bool, q: Queue, k: nat, isNew: bool, ask: Ask, addr: nat)
    requires k < |q.entries|
    ensures Waiting(p, Finish(cfg, size, q, k, isNew, ask, addr).q)
         == Waiting(p, q) + if ask.client.None? then 0
           else One(p)(Waiter(ask.client.value, ask.handle, ask.start, ask.End()))
  {
    var h := Hops(cfg, ask);
    if WantsPrefetch(cfg, q.entries[k], isNew, ask, h) && ask.End() < PrefetchEnd(cfg, size, ask) {
      var q1 := InsertAfter(q, k, addr, ask.End(), PrefetchEnd(cfg, size, ask), Flag(h, FLAG_PREFETCH));
      SumInsert(q.entries, k + 1, q1.entries[k + 1], OfEntry(p));
      assert Waiting(p, q1) == Waiting(p, q);
      AddCounts(p, q1, k, ask);
    } else if ask.client.Some? {
      AddCounts(p, q, k, ask);
    }
  }

  lemma NewKeeps(cfg: Config, size: nat, q: Queue, ask: Ask, addr: nat, preAddr: nat)
    requires QInv(size, q) && Sane(cfg) && Fits(size, ask) && size % BLOCK == 0 && ask.length <= cfg.maxPayload
    requires FreeAddr(q, addr) && FreeAddr(q, preAddr) && addr != preAddr
    ensures var q' := Finish(cfg, size, Append(cfg, size, q, ask, addr), |q.entries|, true, ask, preAddr).q;
      QInv(size, q') && Continues(q, q') && q'.shutdown == q.shutdown
  {
    var q1, k := Append(cfg, size, q, ask, addr), |q.entries|;
    AppendKeeps(cfg, size, q, ask, addr);
    FinishKeeps(cfg, size, q1, k, true, ask, preAddr);
    ContinuesOn(q, q1, Finish(cfg, size, q1, k, true, ask, preAddr).q);
  }

  lemma ContinuesSelf(q: Queue)
    ensures Continues(q, q)
  {
  }

  /** A request that is taken keeps the queue well formed. */
  lemma RequestKeeps(cfg: Config, size: nat, q: Queue, ask: Ask, addr: nat, preAddr: nat)
    requires QInv(size, q) && Sane(cfg) && Fits(size, ask) && size % BLOCK == 0
    requires FreeAddr(q, addr) && FreeAddr(q, preAddr) && addr != preAddr
    requires Request(cfg, size, q, ask, addr, preAddr).Accepted?
    ensures !q.shutdown
    ensures var q' := Request(cfg, size, q, ask, addr, preAddr).q; QInv(size, q') && Continues(q, q') && !q'.shutdown
  {
    var k := FirstCovering(q.entries, ask.start, ask.End());
    if k == |q.entries| {
      NewKeeps(cfg, size, q, ask, addr, preAddr);
    } else if ask.client.None? {
      ContinuesSelf(q);
    } else {
      FinishKeeps(cfg, size, q, k, false, ask, preAddr);
    }
  }

  /** A client request that is taken adds exactly its own waiter; a replication request adds none. */
  lemma RequestCounts(cfg: Config, size: nat, p: Waiter -> bool, q: Queue, ask: Ask, addr: nat, preAddr: nat)
    requires Request(cfg, size, q, ask, addr, preAddr).Accepted?
    ensures Waiting(p, Request(cfg, size, q, ask, addr, preAddr).q)
         == Waiting(p, q) + if ask.client.None? then 0
           else One(p)(Waiter(ask.client.value, ask.handle, ask.start, ask.End()))
  {
    var k := FirstCovering(q.entries, ask.start, ask.End());
    if k == |q.entries| {
      var q1 := Append(cfg, size, q, ask, addr);
      SumConcat(q.entries, [q1.entries[k]], OfEntry(p));
      assert Waiting(p, q1) == Waiting(p, q);
      FinishCounts(cfg, size, p, q1, k, true, ask, preAddr);
    } else if ask.client.Some? {
      FinishCounts(cfg, size, p, q, k, false, ask, preAddr);
    }
  }

  // ----- removal, cancelling, receiving -----

  function Mine(cs: seq<Waiter>, owner: Owner): seq<Waiter> {
    if cs == [] then [] else
    var w := cs[|cs| - 1];
    Mine(cs[..|cs| - 1], owner) + if w.owner == owner then [w] else []
  }

  function Others(cs: seq<Waiter>, owner: Owner): seq<Waiter> {
    if cs == [] then [] else
    var w := cs[|cs| - 1];
    Others(cs[..|cs| - 1], owner) + if w.owner == owner then [] else [w]
  }

  function WithoutClient(e: Entry, owner: Owner): Entry { e.(clients := Others(e.clients, owner)) }

  /** The waiters `uplink_removeEntry` calls back. */
  function Dismissed(entries: seq<Entry>, owner: Owner): seq<Waiter> {
    if entries == [] then []
      else Dismissed(entries[..|entries| - 1], owner) + Mine(entries[|entries| - 1].clients, owner)
  }

  function AllWithout(entries: seq<Entry>, owner: Owner): seq<Entry> {
    seq(|entries|, i requires 0 <= i < |entries| => WithoutClient(entries[i], owner))
  }

  function Remove(q: Queue, owner: Owner): Queue { q.(entries := AllWithout(q.entries, owner)) }

  /** All waiters of the queue, in the order `cancelAllRequests` calls them back. */
  function AllWaiters(entries: seq<Entry>): seq<Waiter> {
    if entries == [] then [] else AllWaiters(entries[..|entries| - 1]) + entries[|entries| - 1].clients
  }

  function Cancel(q: Queue): Queue { q.(entries := [], len := 0) }

  function IndexOf(entries: seq<Entry>, handle: nat): (k: nat)
    ensures k <= |entries| && (forall i :: 0 <= i < k ==> entries[i].handle != handle)
    ensures k < |entries| ==> entries[k].handle == handle
  {
    if entries == [] || entries[0].handle == handle then 0 else 1 + IndexOf(entries[1..], handle)
  }

  /** The entry at this address, if it still has this handle. */
  function IndexAt(entries: seq<Entry>, addr: nat, handle: nat): (k: nat)
    ensures k <= |entries| && (forall i :: 0 <= i < k ==> !(entries[i].addr == addr && entries[i].handle == handle))
    ensures k < |entries| ==> entries[k].addr == addr && entries[k].handle == handle
  {
    if entries == [] || (entries[0].addr == addr && entries[0].handle == handle) then 0
      else 1 + IndexAt(entries[1..], addr, handle)
  }

  function Drop(q: Queue, k: nat): Queue
    requires k < |q.entries| && q.len > 0
  {
    q.(entries := q.entries[..k] + q.entries[k + 1..], len := q.len - 1)
  }

  lemma {:induction false} SplitClients(p: Waiter -> bool, cs: seq<Waiter>, owner: Owner)
    ensures SumBy(cs, One(p)) == SumBy(Mine(cs, owner), One(p)) + SumBy(Others(cs, owner), One(p))
    ensures |Others(cs, owner)| <= |cs|
    ensures forall w :: w in Others(cs, owner) ==> w in cs && w.owner != owner
    ensures forall w :: w in Mine(cs, owner) ==> w in cs && w.owner == owner
  {
    if cs != [] {
      var front, w := cs[..|cs| - 1], cs[|cs| - 1];
      SplitClients(p, front, owner);
      SumLast(cs, One(p));
      SumConcat(Mine(front, owner), if w.owner == owner then [w] else [], One(p));
      SumConcat(Others(front, owner), if w.owner == owner then [] else [w], One(p));
    }
  }

  lemma {:induction false} RemovedSum(p: Waiter -> bool, entries: seq<Entry>, owner: Owner)
    ensures SumBy(entries, OfEntry(p)) == SumBy(AllWithout(entries, owner), OfEntry(p))
      + SumBy(Dismissed(entries, owner), One(p))
  {
    if entries != [] {
      var n := |entries| - 1;
      var front, e, rest := entries[..n], entries[n], AllWithout(entries, owner);
      RemovedSum(p, front, owner);
      SplitClients(p, e.clients, owner);
      SumLast(entries, OfEntry(p));
      SumLast(rest, OfEntry(p));
      assert rest[..n] == AllWithout(front, owner) && rest[n] == WithoutClient(e, owner);
      SumConcat(Dismissed(front, owner), Mine(e.clients, owner), One(p));
    }
  }

  /** Removing a client takes out exactly the waiters it calls back. */
  lemma RemoveCounts(p: Waiter -> bool, q: Queue, owner: Owner)
    ensures Waiting(p, q) == Waiting(p, Remove(q, owner)) + SumBy(Dismissed(q.entries, owner), One(p))
  {
    RemovedSum(p, q.entries, owner);
  }

  lemma {:induction false} DismissedAreMine(entries: seq<Entry>, owner: Owner)
    ensures forall w :: w in Dismissed(entries, owner) ==> w.owner == owner
  {
    if entries != [] {
      DismissedAreMine(entries[..|entries| - 1], owner);
      SplitClients(_ => true, entries[|entries| - 1].clients, owner);
    }
  }

  lemma RemoveKeeps(size: nat, q: Queue, owner: Owner)
    requires QInv(size, q)
    ensures QInv(size, Remove(q, owner)) && Continues(q, Remove(q, owner))
    ensures forall i, w :: 0 <= i < |q.entries| && w in Remove(q, owner).entries[i].clients ==> w.owner != owner
  {
    var q' := Remove(q, owner);
    forall i | 0 <= i < |q.entries|
      ensures EntryOk(size, q'.entries[i]) && Same(q.entries[i], q'.entries[i])
      ensures forall w :: w in q'.entries[i].clients ==> w.owner != owner {
      SplitClients(_ => true, q.entries[i].clients, owner);
      var cs := q'.entries[i].clients;
      assert forall c :: 0 <= c < |cs| ==> cs[c] in q.entries[i].clients;
    }
  }

  lemma {:induction false} AllCounts(p: Waiter -> bool, q: Queue)
    ensures Waiting(p, q) == SumBy(AllWaiters(q.entries), One(p))
    decreases |q.entries|
  {
    if q.entries != [] {
      var front, e := q.entries[..|q.entries| - 1], q.entries[|q.entries| - 1];
      AllCounts(p, q.(entries := front));
      SumLast(q.entries, OfEntry(p));
      SumConcat(AllWaiters(front), e.clients, One(p));
    }
  }

  lemma DropKeeps(size: nat, q: Queue, k: nat)
    requires QInv(size, q) && k < |q.entries|
    ensures QInv(size, Drop(q, k)) && Continues(q, Drop(q, k))
    ensures forall j :: 0 <= j < |Drop(q, k).entries| ==> Drop(q, k).entries[j].handle != q.entries[k].handle
  {
    var q' := Drop(q, k);
    forall j | 0 <= j < |q'.entries|
      ensures exists i :: 0 <= i < |q.entries| && Same(q.entries[i], q'.entries[j]) {
      assert Same(q.entries[if j < k then j else j + 1], q'.entries[j]);
    }
  }

  lemma DropCounts(p: Waiter -> bool, q: Queue, k: nat)
    requires k < |q.entries| && q.len > 0
    ensures Waiting(p, Drop(q, k)) == Waiting(p, q) - SumBy(q.entries[k].clients, One(p))
  {
    SumRemove(q.entries, k, OfEntry(p));
  }

  /** A handle drawn for a replication request, which no entry ever gets. */
  function Draw(q: Queue): Queue { q.(lastId := q.lastId + 1) }

  lemma DrawKeeps(size: nat, q: Queue)
    requires QInv(size, q)
    ensures QInv(size, Draw(q)) && Continues(q, Draw(q))
    ensures Draw(q).entries == q.entries && forall i :: 0 <= i < |q.entries| ==> q.entries[i].handle < Draw(q).lastId
  {
    ContinuesSelf(q);
  }

  // ----- the sent flags -----

  /** The queue with the sent flags of some entries changed. */
  ghost predicate OnlySentDiffers(q: Queue, q': Queue) {
    && q' == q.(entries := q'.entries) && |q'.entries| == |q.entries|
    && forall i :: 0 <= i < |q.entries| ==> q'.entries[i] == q.entries[i].(sent := q'.entries[i].sent)
  }

  lemma SentKeeps(size: nat, q: Queue, q': Queue)
    requires QInv(size, q) && OnlySentDiffers(q, q')
    ensures QInv(size, q') && Continues(q, q')
  {
  }

  lemma {:induction false} SentCounts(p: Waiter -> bool, q: Queue, q': Queue)
    requires OnlySentDiffers(q, q')
    ensures Waiting(p, q') == Waiting(p, q)
    decreases |q.entries|
  {
    if q.entries != [] {
      var r, r' := q.(entries := q.entries[1..]), q'.(entries := q'.entries[1..]);
      assert OnlySentDiffers(r, r');
      SentCounts(p, r, r');
    }
  }
}
