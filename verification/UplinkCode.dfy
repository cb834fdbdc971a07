/** The loops of `uplink.c` over the request queue, proved against the lock sections of UplinkQueue. */
module UplinkCode {
  import opened Options
  import opened Units
  import opened UplinkQueue
  import UplinkRuns

  /** Taking the entry out is what the second lock section of the uplink's thread does to the uplink. */
  ghost predicate UnlinksLike(q: Queue, addr: nat, handle: nat, found: Option<Entry>, q': Queue) {
    forall up: UplinkRuns.Up | up.q == q && up.receiver.Found? && up.receiver.addr == addr
        && up.receiver.handle == handle ::
      UplinkRuns.UnlinkUp(up) == if found.None? then up.(receiver := UplinkRuns.Idle)
        else up.(q := q', receiver :=
          UplinkRuns.Delivering(up.receiver.from, up.receiver.buffer, found.value.clients))
  }

  const RESEND_BATCH := 125

  /** The headers a resend builds from the scanned entries. */
  function Due(entries: seq<Entry>, newOnly: bool): seq<Wire> {
    if entries == [] then [] else
    var n := |entries| - 1;
    Due(entries[..n], newOnly) + if newOnly && entries[n].sent then [] else [WireOf(entries[n])]
  }

  /** A resend asks for every entry, in order. */
  lemma {:induction false} ResendsAll(entries: seq<Entry>, i: nat)
    requires i < |entries|
    ensures |Due(entries, false)| == |entries| && Due(entries, false)[i] == WireOf(entries[i])
  {
    var n := |entries| - 1;
    if n > 0 {
      ResendsAll(entries[..n], if i < n then i else 0);
    }
  }

  predicate AsksFor(e: Entry, newOnly: bool, w: Wire) { w == WireOf(e) && !(newOnly && e.sent) }

  /** What goes out is exactly what is due. */
  lemma {:induction false} SendsDue(entries: seq<Entry>, newOnly: bool, w: Wire)
    ensures w in Due(entries, newOnly) <==> exists i :: 0 <= i < |entries| && AsksFor(entries[i], newOnly, w)
  {
    if entries != [] {
      var n := |entries| - 1;
      SendsDue(entries[..n], newOnly, w);
      if w in Due(entries[..n], newOnly) {
        var i :| 0 <= i < n && AsksFor(entries[..n][i], newOnly, w);
        assert AsksFor(entries[i], newOnly, w);
      }
      if i :| 0 <= i < n && AsksFor(entries[i], newOnly, w) {
        assert AsksFor(entries[..n][i], newOnly, w);
      }
      assert w in Due(entries, newOnly) <==> w in Due(entries[..n], newOnly) || AsksFor(entries[n], newOnly, w);
    }
  }

  /** The first k entries marked as sent. */
  function Sent(entries: seq<Entry>, k: nat): seq<Entry>
    requires k <= |entries|
  {
    seq(|entries|, i requires 0 <= i < |entries| => if i < k then entries[i].(sent := true) else entries[i])
  }

  /** The given client gone from the first k entries. */
  function Left(entries: seq<Entry>, owner: Owner, k: nat): seq<Entry>
    requires k <= |entries|
  {
    seq(|entries|, i requires 0 <= i < |entries| => if i < k then WithoutClient(entries[i], owner) else entries[i])
  }

  /**
   Resending disturbs nobody: the queue stays well formed, with the same entries and the same waiters.
   What was scanned is not sent again with the new ones; what was not is as before.
   */
  lemma SentMeans(size: nat, p: Waiter -> bool, q: Queue, k: nat)
    requires k <= |q.entries| && QInv(size, q)
    ensures var q' := q.(entries := Sent(q.entries, k));
      && OnlySentDiffers(q, q') && QInv(size, q') && Continues(q, q') && Waiting(p, q') == Waiting(p, q)
      && (forall i :: 0 <= i < k ==> q'.entries[i].sent) && q'.entries[k..] == q.entries[k..]
  {
    var q' := q.(entries := Sent(q.entries, k));
    SentKeeps(size, q, q');
    SentCounts(p, q, q');
  }

  lemma {:induction false} FirstCoveringIs(entries: seq<Entry>, start: nat, end: nat, k: nat)
    requires k <= |entries| && (forall i :: 0 <= i < k ==> !Covers(entries[i], start, end))
    requires k < |entries| ==> Covers(entries[k], start, end)
    ensures FirstCovering(entries, start, end) == k
  {
  }

  predicate Works(connected: bool, flushOk: nat -> bool, n: nat) { connected && flushOk(n) }

  ghost predicate WellAsked(cfg: Config, size: nat, q: Queue, ask: Ask, addr: nat, preAddr: nat) {
    && QInv(size, q) && Sane(cfg) && Fits(size, ask) && size % BLOCK == 0
    && FreeAddr(q, addr) && FreeAddr(q, preAddr) && addr != preAddr
  }

  /** Clearing the low bits of an address. */
  method AlignDown(n: nat) returns (r: nat)
    ensures r == RoundDown(n)
  {
    r := n - n % BLOCK;
  }

  method AlignUp(n: nat) returns (r: nat)
    ensures r == RoundUp(n)
  {
    r := n + BLOCK - 1;
    r := r - r % BLOCK;
  }

  class Uplink {
    const size: nat
    var queue: seq<Entry>
    var queueLen: nat
    var queueId: nat
    var shutdown: bool

    ghost function State(): Queue reads this { Queue(queue, queueLen, queueId, shutdown) }

    constructor (size: nat)
      ensures this.size == size && State() == Queue([], 0, 0, false)
    {
      this.size := size;
      queue, queueLen, queueId, shutdown := [], 0, 0, false;
    }

    /** The search for an entry to attach to. */
    method FindCovering(start: nat, end: nat) returns (k: nat)
      ensures k == FirstCovering(queue, start, end)
    {
      k := 0;
      while k < |queue|
        invariant k <= |queue| && forall i :: 0 <= i < k ==> !Covers(queue[i], start, end)
      {
        if queue[k].from <= start && queue[k].to >= end {
          FirstCoveringIs(queue, start, end, k);
          return;
        }
        k := k + 1;
      }
      FirstCoveringIs(queue, start, end, k);
    }

    /** Walks to the tail of the client list, giving up at the limit. */
    method HasRoom(k: nat) returns (room: bool)
      requires k < |queue|
      ensures room == (|queue[k].clients| < MAX_CLIENTS)
    {
      var c, count := 0, 0;
      while c < |queue[k].clients|
        invariant c == count <= |queue[k].clients| && count < MAX_CLIENTS
      {
        c, count := c + 1, count + 1;
        if count >= MAX_CLIENTS {
          return false;
        }
      }
      return true;
    }

    /** `extendRequest`: masks and caps the end step by step; what that means for the caller. */
    method ExtendRequest(bgr: Bgr, start: nat, end: nat, wanted: nat) returns (newEnd: nat)
      requires start <= end
      ensures newEnd == Extend(size, bgr, start, end, wanted)
      ensures end <= size && size % BLOCK == 0 && end - start < WORD32 ==> end <= newEnd <= size
    {
      newEnd := end;
      var length := (end - start) % WORD32;
      if length < wanted {
        newEnd := start + wanted;
        if bgr == HashBlock && end / HASH_BLOCK != newEnd / HASH_BLOCK {
          newEnd := newEnd - newEnd % HASH_BLOCK;
        }
        if newEnd > size {
          newEnd := size;
        }
        newEnd := AlignUp(newEnd);
      }
      if end <= size && size % BLOCK == 0 && end - start < WORD32 {
        ExtendGrows(size, bgr, start, end, wanted);
      }
    }

    /** The block-aligned range to ask the uplink server for, computed before taking the lock. */
    method RequestRange(cfg: Config, ask: Ask) returns (from: nat, to: nat)
      ensures from == RoundDown(ask.start) && to == RequestEnd(cfg, size, ask)
      ensures Sane(cfg) && size % BLOCK == 0 && ask.End() <= size && ask.length <= cfg.maxPayload ==>
        from <= ask.start && ask.End() <= to <= size
    {
      Rounding(ask.start);
      from := AlignDown(ask.start);
      to := ask.start + ask.length;
      if ask.client.Some? && cfg.minRequestSize != 0 {
        to := ExtendRequest(cfg.bgr, from, to, cfg.minRequestSize);
      }
      to := AlignUp(to);
      if Sane(cfg) && size % BLOCK == 0 && ask.End() <= size && ask.length <= cfg.maxPayload {
        WideningCovers(cfg, size, ask);
      }
    }

    /** The end of the lock section: prefetch behind entry k, then add the client to it. */
    method FinishRequest(cfg: Config, k: nat, isNew: bool, ask: Ask, preAddr: nat) returns (wires: seq<Wire>)
      requires k < |queue|
      modifies this
      ensures Finish(cfg, size, old(State()), k, isNew, ask, preAddr) == Accepted(State(), wires)
    {
      wires := if isNew then [WireOf(queue[k])] else [];
      var h, end := Hops(cfg, ask), ask.start + ask.length;
      if ask.client.Some?
         && (isNew || queue[k].clients == [] || queue[k].clients[0].owner.data == ask.client.value.data)
         && h / FLAG_PREFETCH % 4 == 0 && end == queue[k].to && ask.length <= cfg.maxPrefetch {
        var triple := ask.length * 3 % WORD32;
        var preEnd := ExtendRequest(cfg.bgr, end, end, if triple < cfg.maxPrefetch then triple else cfg.maxPrefetch);
        if end < preEnd {
          queueLen, queueId := queueLen + 1, queueId + 1;
          var pre := Entry(preAddr, queueId, end, preEnd, Flag(h, FLAG_PREFETCH), true, []);
          queue := queue[..k + 1] + [pre] + queue[k + 1..];
          wires := wires + [WireOf(pre)];
        }
      }
      if ask.client.Some? {
        var w := Waiter(ask.client.value, ask.handle, ask.start, end);
        queue := queue[k := queue[k].(clients := queue[k].clients + [w])];
      }
    }

    method NewEntry(cfg: Config, ask: Ask, addr: nat, from: nat, to: nat)
      requires from == RoundDown(ask.start) && to == RequestEnd(cfg, size, ask)
      modifies this
      ensures State() == Append(cfg, size, old(State()), ask, addr)
    {
      queueLen, queueId := queueLen + 1, queueId + 1;
      queue := queue + [Entry(addr, queueId, from, to, Hops(cfg, ask), true, [])];
    }

    /** The lock section of `uplink_requestInternal` on an open uplink: attach to an entry or queue a new one. */
    method Enqueue(cfg: Config, ask: Ask, addr: nat, preAddr: nat, from: nat, to: nat)
      returns (ok: bool, wires: seq<Wire>)
      requires !shutdown && ask.length <= cfg.maxPayload && (ask.hops / FLAG_BGR % 2 == 1 ==> cfg.bgr == Complete)
      requires from == RoundDown(ask.start) && to == RequestEnd(cfg, size, ask)
      modifies this
      ensures ok == Request(cfg, size, old(State()), ask, addr, preAddr).Accepted?
      ensures if ok then Request(cfg, size, old(State()), ask, addr, preAddr) == Accepted(State(), wires)
              else State() == old(State()) && wires == []
    {
      ok, wires := false, [];
      var end := ask.start + ask.length;
      var k := FindCovering(ask.start, end);
      if k == |queue| {
        if queueLen >= MAX_QUEUE {
          return;
        }
        NewEntry(cfg, ask, addr, from, to);
        wires := FinishRequest(cfg, k, true, ask, preAddr);
      } else if ask.client.Some? {
        if Hops(cfg, ask) > queue[k].hops && queue[k].from == ask.start && queue[k].to == end {
          return;
        }
        var room := HasRoom(k);
        if !room {
          return;
        }
        wires := FinishRequest(cfg, k, false, ask, preAddr);
      }
      ok := true;
    }

    /**
     `uplink_requestInternal` up to the requests it fires off: it is Request, refused calls change
     nothing, and a well-formed queue stays so.
     */
    method RequestInternal(cfg: Config, ask: Ask, addr: nat, preAddr: nat) returns (ok: bool, wires: seq<Wire>)
      modifies this
      ensures ok == Request(cfg, size, old(State()), ask, addr, preAddr).Accepted?
      ensures if ok then Request(cfg, size, old(State()), ask, addr, preAddr) == Accepted(State(), wires)
              else State() == old(State()) && wires == []
      ensures WellAsked(cfg, size, old(State()), ask, addr, preAddr) ==> QInv(size, State())
    {
      ok, wires := false, [];
      if (ask.hops / FLAG_BGR % 2 == 1 && cfg.bgr != Complete) || shutdown || ask.length > cfg.maxPayload {
        return;
      }
      var from, to := RequestRange(cfg, ask);
      ok, wires := Enqueue(cfg, ask, addr, preAddr, from, to);
      if ok && WellAsked(cfg, size, old(State()), ask, addr, preAddr) {
        RequestKeeps(cfg, size, old(State()), ask, addr, preAddr);
      }
    }

    /** The inner loop of `uplink_removeEntry` on one client list. */
    method Dismiss(cs: seq<Waiter>, owner: Owner) returns (calls: seq<Waiter>, kept: seq<Waiter>)
      ensures calls == Mine(cs, owner) && kept == Others(cs, owner)
    {
      calls, kept := [], [];
      var c := 0;
      while c < |cs|
        invariant c <= |cs| && calls == Mine(cs[..c], owner) && kept == Others(cs[..c], owner)
      {
        assert cs[..c + 1][..c] == cs[..c];
        if cs[c].owner == owner {
          calls := calls + [cs[c]];
        } else {
          kept := kept + [cs[c]];
        }
        c := c + 1;
      }
      assert cs[..c] == cs;
    }

    /** `uplink_removeEntry`; returns the waiters it calls back with an error. */
    method RemoveEntry(owner: Owner) returns (calls: seq<Waiter>)
      modifies this`queue
      ensures State() == Remove(old(State()), owner) && calls == Dismissed(old(queue), owner)
    {
      calls := [];
      var k := 0;
      while k < |queue|
        invariant k <= |queue| == |old(queue)| && queue == Left(old(queue), owner, k)
        invariant calls == Dismissed(old(queue)[..k], owner)
      {
        var mine, kept := Dismiss(queue[k].clients, owner);
        assert old(queue)[..k + 1][..k] == old(queue)[..k];
        calls := calls + mine;
        queue := queue[k := queue[k].(clients := kept)];
        k := k + 1;
      }
      assert old(queue)[..k] == old(queue);
    }

    /** `cancelAllRequests`; returns the waiters it calls back with an error. */
    method CancelAllRequests() returns (calls: seq<Waiter>)
      modifies this`queue, this`queueLen
      ensures State() == Cancel(old(State())) && calls == AllWaiters(old(queue))
    {
      calls := [];
      var k := 0;
      while k < |queue|
        invariant k <= |queue| && queue == old(queue) && calls == AllWaiters(queue[..k])
      {
        assert queue[..k + 1][..k] == queue[..k];
        var c := 0;
        while c < |queue[k].clients|
          invariant c <= |queue[k].clients| && calls == AllWaiters(queue[..k]) + queue[k].clients[..c]
        {
          calls := calls + [queue[k].clients[c]];
          c := c + 1;
        }
        assert queue[k].clients[..c] == queue[k].clients;
        k := k + 1;
      }
      assert queue[..k] == queue;
      queue, queueLen := [], 0;
    }

    /** The first lock section of `handleReceive`: which entry a reply belongs to. */
    method Find(handle: nat) returns (found: Option<Entry>)
      ensures found.Some? == (IndexOf(queue, handle) < |queue|)
      ensures found.Some? ==> found.value == queue[IndexOf(queue, handle)]
    {
      var k := 0;
      while k < |queue|
        invariant k <= |queue| && forall i :: 0 <= i < k ==> queue[i].handle != handle
      {
        if queue[k].handle == handle {
          return Some(queue[k]);
        }
        k := k + 1;
      }
      return None;
    }

    /** The second lock section of `handleReceive`: unlinks the entry if it is still the same one. */
    method Take(addr: nat, handle: nat) returns (found: Option<Entry>)
      requires queueLen == |queue|
      modifies this`queue, this`queueLen
      ensures found.Some? == (IndexAt(old(queue), addr, handle) < |old(queue)|)
      ensures if found.Some? then found.value == old(queue)[IndexAt(old(queue), addr, handle)]
                && State() == Drop(old(State()), IndexAt(old(queue), addr, handle))
              else State() == old(State())
      ensures UnlinksLike(old(State()), addr, handle, found, State())
    {
      var k := 0;
      while k < |queue|
        invariant k <= |queue| && queue == old(queue) && queueLen == old(queueLen)
        invariant forall i :: 0 <= i < k ==> !(queue[i].addr == addr && queue[i].handle == handle)
      {
        if queue[k].addr == addr && queue[k].handle == handle {
          found := Some(queue[k]);
          queue, queueLen := queue[..k] + queue[k + 1..], queueLen - 1;
          return;
        }
        k := k + 1;
      }
      return None;
    }

    /** `markRequestUnsent`, for the entry with this handle if it is still queued. */
    method MarkRequestUnsent(handle: nat)
      modifies this`queue
      ensures var k := IndexOf(old(queue), handle);
        if k < |old(queue)| then queue == old(queue)[k := old(queue)[k].(sent := false)] else queue == old(queue)
      ensures OnlySentDiffers(old(State()), State())
    {
      var k := 0;
      while k < |queue|
        invariant k <= |queue| && queue == old(queue) && forall i :: 0 <= i < k ==> queue[i].handle != handle
      {
        if queue[k].handle == handle {
          queue := queue[k := queue[k].(sent := false)];
          return;
        }
        k := k + 1;
      }
    }

    /** One entry of the scan: skipped, or marked as sent with its header put into the buffer. */
    method ScanEntry(newOnly: bool, reqs: array<Wire>, i: nat, count: nat) returns (count': nat)
      requires i < |queue| && count < reqs.Length
      modifies reqs, this`queue
      ensures queue == old(queue)[i := old(queue)[i].(sent := true)]
      ensures count <= count' <= count + 1
      ensures reqs[..count'] == old(reqs[..count]) + if newOnly && old(queue)[i].sent then []
        else [WireOf(old(queue)[i])]
    {
      if newOnly && queue[i].sent {
        assert queue[i] == queue[i].(sent := true);
        return count;
      }
      queue := queue[i := queue[i].(sent := true)];
      reqs[count] := WireOf(queue[i]);
      return count + 1;
    }

    /** The scan under the lock, up to the first failed flush of a full buffer; `rest` is left to send after it. */
    method ScanQueue(newOnly: bool, connected: bool, flushOk: nat -> bool)
      returns (out: seq<Wire>, rest: seq<Wire>, upto: nat, flushes: nat, failed: bool)
      modifies this`queue
      ensures upto <= |old(queue)| && queue == Sent(old(queue), upto)
      ensures out + rest == Due(old(queue)[..upto], newOnly)
      ensures |out| == 125 * flushes && |rest| < 125
      ensures forall n :: 0 <= n < (if failed then flushes - 1 else flushes) ==> Works(connected, flushOk, n)
      ensures if failed then rest == [] && flushes > 0 && !Works(connected, flushOk, flushes - 1)
        else upto == |old(queue)|
    {
      var reqs := new Wire[RESEND_BATCH](_ => Wire(0, 0, 0, 0));
      var count := 0;
      out, rest, upto, flushes, failed := [], [], 0, 0, false;
      while upto < |queue|
        invariant upto <= |queue| == |old(queue)| && count < RESEND_BATCH == reqs.Length
        invariant |out| == RESEND_BATCH * flushes
        invariant queue == Sent(old(queue), upto)
        invariant forall n :: 0 <= n < flushes ==> Works(connected, flushOk, n)
        invariant out + reqs[..count] == Due(old(queue)[..upto], newOnly)
        modifies reqs, this`queue
      {
        assert old(queue)[..upto + 1][..upto] == old(queue)[..upto];
        count := ScanEntry(newOnly, reqs, upto, count);
        upto := upto + 1;
        if count == RESEND_BATCH {
          out := out + reqs[..count];
          count := 0;
          flushes := flushes + 1;
          if !Works(connected, flushOk, flushes - 1) {
            failed := true;
            return;
          }
        }
      }
      rest := reqs[..count];
    }

    /**
     `sendQueuedRequests`: the buffer of 125 headers is flushed when full and at the end; `flushOk` tells
     which flushes work. Every scanned entry ends up marked as sent and every header is built exactly once.
     A failed flush raises the problem flag; a last, partial flush sets it either way, and is skipped
     without a connection, although its entries count as sent.
     */
    method SendQueuedRequests(newOnly: bool, connected: bool, flushOk: nat -> bool, problem: bool)
      returns (out: seq<Wire>, upto: nat, problem': bool)
      modifies this`queue
      ensures upto <= |old(queue)| && queue == Sent(old(queue), upto)
      ensures out == Due(old(queue)[..upto], newOnly)
      ensures upto < |old(queue)| ==> problem' && |out| > 0 && |out| % RESEND_BATCH == 0
      ensures (forall n: nat :: Works(connected, flushOk, n)) ==> upto == |old(queue)|
      ensures (forall n: nat :: Works(connected, flushOk, n)) && problem' ==> problem && |out| % RESEND_BATCH == 0
      ensures var last := |out| / RESEND_BATCH;
        !problem' ==> (forall n :: 0 <= n < last ==> Works(connected, flushOk, n))
                      && (connected && |out| % RESEND_BATCH != 0 ==> flushOk(last))
    {
      var rest, flushes, failed;
      out, rest, upto, flushes, failed := ScanQueue(newOnly, connected, flushOk);
      problem' := problem || failed;
      if rest != [] && connected {
        problem' := !Works(connected, flushOk, flushes);
      }
      assert Works(connected, flushOk, 0) ==> connected;
      out := out + rest;
      Batches(|out|, flushes, |rest|);
    }
  }

  lemma Batches(total: nat, flushes: nat, rest: nat)
    requires total == RESEND_BATCH * flushes + rest && rest < RESEND_BATCH
    ensures total / RESEND_BATCH == flushes && total % RESEND_BATCH == rest
  {
  }
}
