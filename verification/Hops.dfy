/** Chains and circles of proxies: how far a request travels and how many requests it causes. */
module Hops {
  import opened Options
  import opened Sums
  import opened Units
  import opened UplinkQueue

  const MAX_HOPS := 60

  ghost function HopsOf(wires: seq<Wire>): seq<nat> {
    seq(|wires|, i requires 0 <= i < |wires| => wires[i].hops)
  }

  ghost predicate Emits(h: nat, out: seq<nat>, cfg: Config, size: nat, q: Queue, ask: Ask, addr: nat, preAddr: nat) {
    && ask.hops == h && ask.client.Some? && Request(cfg, size, q, ask, addr, preAddr).Accepted?
    && out == HopsOf(Request(cfg, size, q, ask, addr, preAddr).wires)
  }

  /** What a proxy may send out, by hop counts, for one request arriving from a client with hop count h. */
  ghost predicate Relays(h: nat, out: seq<nat>) {
    out == [] || (h % 64 <= MAX_HOPS && exists cfg, size, q, ask, addr, preAddr ::
      Emits(h, out, cfg, size, q, ask, addr, preAddr))
  }

  lemma FinishHops(cfg: Config, size: nat, q: Queue, k: nat, isNew: bool, ask: Ask, preAddr: nat)
    requires k < |q.entries| && (isNew ==> q.entries[k].hops == Hops(cfg, ask)) && ask.client.Some?
    ensures var out, h := HopsOf(Finish(cfg, size, q, k, isNew, ask, preAddr).wires), Hops(cfg, ask);
      out == (if isNew then [h] else [])
      || (h / FLAG_PREFETCH % 4 == 0 && out == (if isNew then [h] else []) + [Flag(h, FLAG_PREFETCH)])
  {
  }

  lemma AddHop(h: nat)
    requires h < 256 && h % 64 <= MAX_HOPS
    ensures (h + 1) % 256 == h + 1 && (h + 1) / 64 == h / 64 && (h + 1) % 64 == h % 64 + 1
    ensures (h + 1) / FLAG_PREFETCH % 4 == 0 <==> h < 64
    ensures h < 64 ==> Flag(h + 1, FLAG_PREFETCH) == h + 65
  {
  }

  lemma RequestHops(h: nat, out: seq<nat>, cfg: Config, size: nat, q: Queue, ask: Ask, addr: nat, preAddr: nat)
    requires h < 256 && h % 64 <= MAX_HOPS && Emits(h, out, cfg, size, q, ask, addr, preAddr)
    ensures out == [] || out == [h + 1] || (h < 64 && (out == [h + 65] || out == [h + 1, h + 65]))
  {
    AddHop(h);
    var k := FirstCovering(q.entries, ask.start, ask.End());
    if k == |q.entries| {
      FinishHops(cfg, size, Append(cfg, size, q, ask, addr), k, true, ask, preAddr);
    } else {
      FinishHops(cfg, size, q, k, false, ask, preAddr);
    }
  }

  /**
   The low six bits count up by one without touching the flags; only a request without flags also
   causes a prefetch, and the prefetch carries its flag.
   */
  lemma RelaysWhat(h: nat, out: seq<nat>)
    requires h < 256 && Relays(h, out)
    ensures out == [] || out == [h + 1] || (h < 64 && (out == [h + 65] || out == [h + 1, h + 65]))
    ensures out != [] ==> h % 64 <= MAX_HOPS
  {
    if out != [] {
      var cfg, size, q, ask, addr, preAddr :| Emits(h, out, cfg, size, q, ask, addr, preAddr);
      RequestHops(h, out, cfg, size, q, ask, addr, preAddr);
    }
  }

  /** And up to 60 hops a proxy does relay: an empty queue sends the request on as it is, with one more hop. */
  lemma RelaysUpTo60(h: nat)
    requires h < 256 && h % 64 <= 60
    ensures Relays(h, [h + 1])
  {
    var cfg := Config(BLOCK, 0, 0, Complete, false);
    var ask := Ask(Some(Owner(0, ClientCallback)), 0, 0, BLOCK, h);
    var q := Queue([], 0, 0, false);
    AddHop(h);
    var e := Append(cfg, BLOCK, q, ask, 0);
    assert FirstCovering(q.entries, 0, BLOCK) == 0;
    FinishHops(cfg, BLOCK, e, 0, true, ask, 1);
    assert Request(cfg, BLOCK, q, ask, 0, 1) == Finish(cfg, BLOCK, e, 0, true, ask, 1);
    assert Emits(h, [h + 1], cfg, BLOCK, q, ask, 0, 1);
  }

  /** What a proxy sends on for each of the requests arriving at it, amid any other traffic. */
  ghost predicate RelaysEach(arrivals: seq<nat>, outs: seq<seq<nat>>) {
    |outs| == |arrivals| && forall i :: 0 <= i < |arrivals| ==> Relays(arrivals[i], outs[i])
  }

  ghost predicate Fans(arrivals: seq<nat>, departures: seq<nat>) {
    exists outs: seq<seq<nat>> :: RelaysEach(arrivals, outs) && departures == Concat(outs)
  }

  ghost function Plain(): nat -> int { (h: nat) => if h < 64 then 1 else 0 }

  ghost predicate At(d: nat, s: seq<nat>) { forall i :: 0 <= i < |s| ==> s[i] < 256 && s[i] % 64 == d }

  lemma SumOfOne(x: nat, f: nat -> int)
    ensures SumBy([x], f) == f(x)
  {
  }

  lemma SumOfTwo(x: nat, y: nat, f: nat -> int)
    ensures SumBy([x, y], f) == f(x) + f(y)
  {
    assert [x, y] == [x] + [y];
    SumConcat([x], [y], f);
    SumOfOne(x, f);
    SumOfOne(y, f);
  }

  lemma FewPlain(h: nat, out: seq<nat>)
    requires h < 256 && h % 64 <= MAX_HOPS
    requires out == [h + 1] || (h < 64 && (out == [h + 65] || out == [h + 1, h + 65]))
    ensures |out| <= 1 + Plain()(h) && SumBy(out, Plain()) <= Plain()(h) && At(h % 64 + 1, out)
  {
    AddHop(h);
    SumOfOne(h + 1, Plain());
    SumOfOne(h + 65, Plain());
    SumOfTwo(h + 1, h + 65, Plain());
  }

  lemma OneRequest(h: nat, out: seq<nat>)
    requires h < 256 && Relays(h, out)
    ensures |out| <= 1 + Plain()(h) && SumBy(out, Plain()) <= Plain()(h) && At(h % 64 + 1, out)
    ensures h % 64 > MAX_HOPS ==> out == []
  {
    RelaysWhat(h, out);
    if out != [] {
      FewPlain(h, out);
    }
  }

  lemma {:induction false} OneProxy(arrivals: seq<nat>, outs: seq<seq<nat>>, d: nat)
    requires At(d, arrivals) && RelaysEach(arrivals, outs)
    ensures |Concat(outs)| <= |arrivals| + SumBy(arrivals, Plain())
    ensures SumBy(Concat(outs), Plain()) <= SumBy(arrivals, Plain())
    ensures At(d + 1, Concat(outs)) && (d > MAX_HOPS ==> Concat(outs) == [])
  {
    if arrivals != [] {
      OneRequest(arrivals[0], outs[0]);
      OneProxy(arrivals[1..], outs[1..], d);
      SumConcat(outs[0], Concat(outs[1..]), Plain());
    }
  }

  /** levels[k] are the hop counts of all requests that reach the (k+1)-th proxy because of one client request. */
  ghost predicate Chain(levels: seq<seq<nat>>) {
    && |levels| > 0 && |levels[0]| == 1 && levels[0][0] < 64
    && forall k :: 0 <= k < |levels| - 1 ==> Fans(levels[k], levels[k + 1])
  }

  /**
   One client request causes at most k requests at the k-th proxy, at most one of them not a prefetch,
   and none after 61 forwards, however the proxies are connected.
   */
  lemma {:induction false} ChainIsBounded(levels: seq<seq<nat>>, k: nat)
    requires Chain(levels) && k < |levels|
    ensures |levels[k]| <= k + 1 && SumBy(levels[k], Plain()) <= 1
    ensures At(levels[0][0] + k, levels[k]) && (k > 0 && levels[k] != [] ==> levels[0][0] + k <= 61)
  {
    var h := levels[0][0];
    if k == 0 {
      assert levels[0] == [h];
    } else {
      ChainIsBounded(levels, k - 1);
      assert Fans(levels[k - 1], levels[k - 1 + 1]);
      var outs: seq<seq<nat>> :| RelaysEach(levels[k - 1], outs) && levels[k] == Concat(outs);
      OneProxy(levels[k - 1], outs, h + k - 1);
    }
  }

  /** The new entry is the first to cover its own range. */
  lemma FirstIsOwn(cfg: Config, size: nat, q: Queue, ask: Ask, addr: nat, preAddr: nat)
    requires Sane(cfg) && Fits(size, ask) && size % BLOCK == 0 && ask.length <= cfg.maxPayload
    requires FirstCovering(q.entries, ask.start, ask.End()) == |q.entries|
    ensures var q', n := Finish(cfg, size, Append(cfg, size, q, ask, addr), |q.entries|, true, ask, preAddr).q,
      |q.entries|;
      && n < |q'.entries| && q'.entries[n].hops == Hops(cfg, ask)
      && q'.entries[n].from == RoundDown(ask.start) && q'.entries[n].to == RequestEnd(cfg, size, ask)
      && FirstCovering(q'.entries, RoundDown(ask.start), RequestEnd(cfg, size, ask)) == n
  {
    var q', n := Finish(cfg, size, Append(cfg, size, q, ask, addr), |q.entries|, true, ask, preAddr).q, |q.entries|;
    WideningCovers(cfg, size, ask);
    var from, to := RoundDown(ask.start), RequestEnd(cfg, size, ask);
    forall i | 0 <= i < n ensures !Covers(q'.entries[i], from, to) {
      assert q'.entries[i] == q.entries[i] && !Covers(q.entries[i], ask.start, ask.End());
    }
    assert Covers(q'.entries[n], from, to);
  }

  /**
   A circle of proxies does not feed itself: a request that a proxy just relayed and that comes back to
   it, from any client and with no fewer hops, is refused.
   */
  lemma CircleIsRefused(cfg: Config, cfg': Config, size: nat, q: Queue, ask: Ask, back: Ask, addr: nat, preAddr: nat)
    requires Sane(cfg) && Fits(size, ask) && size % BLOCK == 0 && Admissible(cfg, q, ask) && q.len < MAX_QUEUE
    requires FirstCovering(q.entries, ask.start, ask.End()) == |q.entries|
    requires back.client.Some? && back.start == RoundDown(ask.start) && back.End() == RequestEnd(cfg, size, ask)
    requires Hops(cfg, ask) <= back.hops < 255
    ensures var r := Request(cfg, size, q, ask, addr, preAddr);
      && r.Accepted? && |r.wires| > 0 && r.wires[0] == Wire(q.lastId + 1, back.start, back.End(), Hops(cfg, ask))
      && Request(cfg', size, r.q, back, addr, preAddr).Refused?
  {
    FirstIsOwn(cfg, size, q, ask, addr, preAddr);
  }
}
