/**
 Whole runs of a proxied image: client threads asking, the threads of its successive uplinks receiving,
 resending, being shut down or closing themselves, and clients leaving. Each lock section of `uplink.c`
 and each callback outside the lock is one step; the steps of all threads interleave freely.
 */
module UplinkRuns {
  import opened Options
  import opened Sums
  import opened Runs
  import opened Units
  import opened UplinkQueue

  type Data = seq<int>

  /** Where the uplink thread is in `handleReceive`. */
  datatype Receiver =
    | Idle
    | Found(handle: nat, addr: nat, from: nat, to: nat, buffer: Data) // entry looked up, lock dropped
    | Delivering(from: nat, buffer: Data, waiters: seq<Waiter>)       // entry unlinked, calling back

  /** Where the uplink thread is in its cleanup. */
  datatype Thread = Running | Closing | Cancelled | Done

  datatype Up = Up(q: Queue, installed: bool, thread: Thread, receiver: Receiver, freed: bool)

  /** A callback: with the bytes, or none for an error. */
  datatype Answer = Answer(waiter: Waiter, bytes: Option<Data>)

  /** `asking[c]`: client c has counted a request that is not (yet) queued. */
  datatype State = State(ups: seq<Up>, relayed: seq<nat>, asking: seq<bool>, accepted: seq<Waiter>,
    answers: seq<Answer>)

  datatype Action =
    | Init
    | Begin(c: nat)                                         // relayedCount++
    | AskUplink(c: nat, u: nat, cfg: Config, ask: Ask, addr: nat, preAddr: nat)
    | AskFuse(u: nat, cfg: Config, ask: Ask, addr: nat, preAddr: nat) // uplink_request of the FUSE module
    | DrawHandle(u: nat)                                    // sendReplicationRequest
    | GiveUp(c: nat)                                        // refused: relayedCount--
    | Replicate(u: nat, cfg: Config, ask: Ask, addr: nat, preAddr: nat)
    | Leave(c: nat, u: nat)                                 // uplink_removeEntry
    | MarkSent(u: nat, q: Queue)                            // markRequestUnsent, sendQueuedRequests
    | Reply(u: nat, handle: nat)                            // first lock section of handleReceive
    | Unlink(u: nat)                                        // second lock section
    | Deliver(u: nat)                                       // one data callback
    | EndDelivery(u: nat)
    | Shutdown(u: nat)                                      // uplink_shutdown
    | Close(u: nat)                                         // cleanup sets the flag
    | CancelPass(u: nat)                                    // cleanup cancels if still installed
    | Unset(u: nat)
    | Free(u: nat)

  ghost predicate AskOk(remote: Data, q: Queue, cfg: Config, ask: Ask, addr: nat, preAddr: nat) {
    Sane(cfg) && Fits(|remote|, ask) && FreeAddr(q, addr) && FreeAddr(q, preAddr) && addr != preAddr
  }

  ghost predicate Enabled(remote: Data, s: State, a: Action) {
    match a
    case Init => true
    case Begin(c) => c < |s.relayed| && c < |s.asking| && !s.asking[c] && s.relayed[c] <= 250
    case AskUplink(c, u, cfg, ask, addr, preAddr) =>
      && c < |s.asking| && s.asking[c] && u < |s.ups| && !s.ups[u].freed && ask.client == Some(ClientOf(c))
      && AskOk(remote, s.ups[u].q, cfg, ask, addr, preAddr)
    case AskFuse(u, cfg, ask, addr, preAddr) =>
      && u < |s.ups| && !s.ups[u].freed && ask.client.Some? && ask.client.value.callback.FuseCallback?
      && AskOk(remote, s.ups[u].q, cfg, ask, addr, preAddr)
    case DrawHandle(u) => u < |s.ups| && s.ups[u].thread.Running?
    case GiveUp(c) => c < |s.relayed| && c < |s.asking| && s.asking[c]
    case Replicate(u, cfg, ask, addr, preAddr) =>
      && u < |s.ups| && s.ups[u].thread.Running? && s.ups[u].receiver.Idle? && ask.client == None
      && AskOk(remote, s.ups[u].q, cfg, ask, addr, preAddr)
    case Leave(c, u) => c < |s.relayed| && u < |s.ups| && !s.ups[u].freed
    case MarkSent(u, q) => u < |s.ups| && !s.ups[u].freed && OnlySentDiffers(s.ups[u].q, q)
    case Reply(u, handle) =>
      && u < |s.ups| && s.ups[u].thread.Running? && s.ups[u].receiver.Idle?
      && IndexOf(s.ups[u].q.entries, handle) < |s.ups[u].q.entries|
    case Unlink(u) => u < |s.ups| && s.ups[u].receiver.Found?
    case Deliver(u) => u < |s.ups| && s.ups[u].receiver.Delivering? && s.ups[u].receiver.waiters != []
    case EndDelivery(u) => u < |s.ups| && s.ups[u].receiver.Delivering? && s.ups[u].receiver.waiters == []
    case Shutdown(u) => u < |s.ups| && s.ups[u].installed
    case Close(u) => u < |s.ups| && s.ups[u].thread.Running? && s.ups[u].receiver.Idle?
    case CancelPass(u) => u < |s.ups| && s.ups[u].thread.Closing?
    case Unset(u) => u < |s.ups| && s.ups[u].thread.Cancelled?
    case Free(u) => u < |s.ups| && !s.ups[u].installed && s.ups[u].thread.Done?
  }

  function Slice(buffer: Data, from: int, to: int): Data {
    if 0 <= from <= to <= |buffer| then buffer[from..to] else []
  }

  function ClientOf(c: nat): Owner { Owner(c, ClientCallback) }

  function WaiterOf(ask: Ask): Waiter
    requires ask.client.Some?
  {
    Waiter(ask.client.value, ask.handle, ask.start, ask.End())
  }

  ghost function Of(c: nat): Waiter -> bool { (w: Waiter) => w.owner == ClientOf(c) }

  ghost function OneAnswer(p: Waiter -> bool): Answer -> int { (a: Answer) => One(p)(a.waiter) }

  function Errors(ws: seq<Waiter>): seq<Answer> {
    seq(|ws|, i requires 0 <= i < |ws| => Answer(ws[i], None))
  }

  /** The 8-bit counters after the given callbacks. */
  ghost function Lower(relayed: seq<nat>, calls: seq<Answer>): seq<nat> {
    seq(|relayed|, c requires 0 <= c < |relayed| => (relayed[c] - SumBy(calls, OneAnswer(Of(c)))) % 256)
  }

  ghost function SetUp(s: State, u: nat, up: Up): State
    requires u < |s.ups|
  {
    s.(ups := s.ups[u := up])
  }

  ghost function CallBack(s: State, u: nat, up: Up, calls: seq<Answer>): State
    requires u < |s.ups|
  {
    s.(ups := s.ups[u := up], relayed := Lower(s.relayed, calls), answers := s.answers + calls)
  }

  ghost function UnlinkUp(up: Up): Up
    requires up.receiver.Found?
  {
    var r, k := up.receiver, IndexAt(up.q.entries, up.receiver.addr, up.receiver.handle);
    if k < |up.q.entries| && up.q.len > 0
    then up.(q := Drop(up.q, k), receiver := Delivering(r.from, r.buffer, up.q.entries[k].clients))
    else up.(receiver := Idle)
  }

  ghost function Apply(remote: Data, s: State, a: Action): State
    requires Enabled(remote, s, a)
  {
    match a
    case Init => s.(ups := s.ups + [Up(Queue([], 0, 0, false), true, Running, Idle, false)])
    case Begin(c) => s.(relayed := s.relayed[c := (s.relayed[c] + 1) % 256], asking := s.asking[c := true])
    case AskUplink(c, u, cfg, ask, addr, preAddr) =>
      var r := Request(cfg, |remote|, s.ups[u].q, ask, addr, preAddr);
      if r.Refused? then s else
      SetUp(s, u, s.ups[u].(q := r.q)).(asking := s.asking[c := false],
        accepted := s.accepted + [WaiterOf(ask)])
    case AskFuse(u, cfg, ask, addr, preAddr) =>
      var r := Request(cfg, |remote|, s.ups[u].q, ask, addr, preAddr);
      if r.Refused? then s else SetUp(s, u, s.ups[u].(q := r.q)).(accepted := s.accepted + [WaiterOf(ask)])
    case DrawHandle(u) => SetUp(s, u, s.ups[u].(q := Draw(s.ups[u].q)))
    case GiveUp(c) => s.(relayed := s.relayed[c := (s.relayed[c] + 255) % 256], asking := s.asking[c := false])
    case Replicate(u, cfg, ask, addr, preAddr) =>
      var r := Request(cfg, |remote|, s.ups[u].q, ask, addr, preAddr);
      if r.Refused? then s else SetUp(s, u, s.ups[u].(q := r.q))
    case Leave(c, u) =>
      CallBack(s, u, s.ups[u].(q := Remove(s.ups[u].q, ClientOf(c))),
        Errors(Dismissed(s.ups[u].q.entries, ClientOf(c))))
    case MarkSent(u, q) => SetUp(s, u, s.ups[u].(q := q))
    case Reply(u, handle) =>
      var e := s.ups[u].q.entries[IndexOf(s.ups[u].q.entries, handle)];
      SetUp(s, u, s.ups[u].(receiver := Found(handle, e.addr, e.from, e.to, Slice(remote, e.from, e.to))))
    case Unlink(u) => SetUp(s, u, UnlinkUp(s.ups[u]))
    case Deliver(u) =>
      var r := s.ups[u].receiver;
      var w := r.waiters[0];
      CallBack(s, u, s.ups[u].(receiver := r.(waiters := r.waiters[1..])),
        [Answer(w, Some(Slice(r.buffer, w.from - r.from, w.to - r.from)))])
    case EndDelivery(u) => SetUp(s, u, s.ups[u].(receiver := Idle))
    case Shutdown(u) =>
      CallBack(s, u, s.ups[u].(q := Cancel(s.ups[u].q).(shutdown := true), installed := false),
        Errors(AllWaiters(s.ups[u].q.entries)))
    case Close(u) => SetUp(s, u, s.ups[u].(q := s.ups[u].q.(shutdown := true), thread := Closing))
    case CancelPass(u) =>
      if s.ups[u].installed
      then CallBack(s, u, s.ups[u].(q := Cancel(s.ups[u].q), thread := Cancelled),
        Errors(AllWaiters(s.ups[u].q.entries)))
      else SetUp(s, u, s.ups[u].(thread := Done))
    case Unset(u) => SetUp(s, u, s.ups[u].(installed := false, thread := Done))
    case Free(u) => SetUp(s, u, s.ups[u].(freed := true))
  }

  // ----- each uplink on its own -----

  ghost predicate ReceiverOk(remote: Data, up: Up) {
    match up.receiver
    case Idle => true
    case Found(handle, addr, from, to, buffer) =>
      && handle <= up.q.lastId && from < to <= |remote| && buffer == remote[from..to]
      && forall i :: 0 <= i < |up.q.entries| && up.q.entries[i].handle == handle ==>
           up.q.entries[i].addr == addr && up.q.entries[i].from == from && up.q.entries[i].to == to
    case Delivering(from, buffer, waiters) =>
      && from + |buffer| <= |remote| && buffer == remote[from..from + |buffer|]
      && forall i :: 0 <= i < |waiters| ==> from <= waiters[i].from < waiters[i].to <= from + |buffer|
  }

  ghost predicate LifeOk(up: Up) {
    && (!up.installed ==> up.q.shutdown && up.q.entries == [])
    && (!up.thread.Running? ==> up.q.shutdown && up.receiver.Idle?)
    && (up.thread.Cancelled? ==> up.q.entries == [])
    && (up.thread.Done? ==> !up.installed)
    && (up.freed ==> up.thread.Done?)
  }

  ghost predicate UpInv(remote: Data, up: Up) { QInv(|remote|, up.q) && ReceiverOk(remote, up) && LifeOk(up) }

  /** The lookup stays true while the queue goes on: a handle is never used again. */
  lemma StillFound(remote: Data, up: Up, q: Queue)
    requires ReceiverOk(remote, up) && Continues(up.q, q)
    ensures ReceiverOk(remote, up.(q := q))
  {
  }

  lemma KeepsRequest(remote: Data, up: Up, cfg: Config, ask: Ask, addr: nat, preAddr: nat)
    requires UpInv(remote, up) && AskOk(remote, up.q, cfg, ask, addr, preAddr) && |remote| % BLOCK == 0
    requires Request(cfg, |remote|, up.q, ask, addr, preAddr).Accepted?
    ensures UpInv(remote, up.(q := Request(cfg, |remote|, up.q, ask, addr, preAddr).q))
  {
    RequestKeeps(cfg, |remote|, up.q, ask, addr, preAddr);
    StillFound(remote, up, Request(cfg, |remote|, up.q, ask, addr, preAddr).q);
  }

  lemma KeepsRemove(remote: Data, up: Up, owner: Owner)
    requires UpInv(remote, up)
    ensures UpInv(remote, up.(q := Remove(up.q, owner)))
  {
    RemoveKeeps(|remote|, up.q, owner);
    StillFound(remote, up, Remove(up.q, owner));
  }

  lemma KeepsDraw(remote: Data, up: Up)
    requires UpInv(remote, up)
    ensures UpInv(remote, up.(q := Draw(up.q)))
  {
    DrawKeeps(|remote|, up.q);
    StillFound(remote, up, Draw(up.q));
  }

  lemma KeepsSent(remote: Data, up: Up, q: Queue)
    requires UpInv(remote, up) && OnlySentDiffers(up.q, q)
    ensures UpInv(remote, up.(q := q))
  {
  }

  lemma KeepsUnlink(remote: Data, up: Up)
    requires UpInv(remote, up) && up.receiver.Found?
    ensures UpInv(remote, UnlinkUp(up))
  {
    var k := IndexAt(up.q.entries, up.receiver.addr, up.receiver.handle);
    if k < |up.q.entries| && up.q.len > 0 {
      DropKeeps(|remote|, up.q, k);
      assert EntryOk(|remote|, up.q.entries[k]);
    }
  }

  lemma KeepsLife(remote: Data, s: State, a: Action, u: nat)
    requires Enabled(remote, s, a) && u < |s.ups| && UpInv(remote, s.ups[u])
    requires a.EndDelivery? || a.Shutdown? || a.Close? || a.CancelPass? || a.Unset? || a.Free?
    ensures UpInv(remote, Apply(remote, s, a).ups[u])
  {
  }

  lemma KeepsReceive(remote: Data, s: State, a: Action, u: nat)
    requires Enabled(remote, s, a) && u < |s.ups| && UpInv(remote, s.ups[u])
    requires a.Reply? || a.Deliver? || a.Unlink?
    ensures UpInv(remote, Apply(remote, s, a).ups[u])
  {
    if a.Unlink? && a.u == u {
      KeepsUnlink(remote, s.ups[u]);
    } else if a.Reply? && a.u == u {
      assert EntryOk(|remote|, s.ups[u].q.entries[IndexOf(s.ups[u].q.entries, a.handle)]);
    }
  }

  /** Every step keeps every uplink well formed. */
  lemma KeepsUp(remote: Data, s: State, a: Action, u: nat)
    requires |remote| % BLOCK == 0 && Enabled(remote, s, a) && u < |s.ups| && UpInv(remote, s.ups[u])
    ensures UpInv(remote, Apply(remote, s, a).ups[u])
  {
    var up := s.ups[u];
    match a {
      case Init =>
      case Begin(_) =>
      case GiveUp(_) =>
      case AskUplink(_, v, cfg, ask, addr, preAddr) =>
        if v == u && Request(cfg, |remote|, up.q, ask, addr, preAddr).Accepted? {
          KeepsRequest(remote, up, cfg, ask, addr, preAddr);
        }
      case Replicate(v, cfg, ask, addr, preAddr) =>
        if v == u && Request(cfg, |remote|, up.q, ask, addr, preAddr).Accepted? {
          KeepsRequest(remote, up, cfg, ask, addr, preAddr);
        }
      case AskFuse(v, cfg, ask, addr, preAddr) =>
        if v == u && Request(cfg, |remote|, up.q, ask, addr, preAddr).Accepted? {
          KeepsRequest(remote, up, cfg, ask, addr, preAddr);
        }
      case DrawHandle(v) => KeepsDraw(remote, up);
      case Leave(c, v) => KeepsRemove(remote, up, ClientOf(c));
      case MarkSent(v, q) => if v == u { KeepsSent(remote, up, q); }
      case Reply(_, _) => KeepsReceive(remote, s, a, u);
      case Unlink(_) => KeepsReceive(remote, s, a, u);
      case Deliver(_) => KeepsReceive(remote, s, a, u);
      case _ => KeepsLife(remote, s, a, u);
    }
  }

  // ----- counting waiters -----

  /** The waiters p that uplink up still owes a callback. */
  ghost function Owed(p: Waiter -> bool, up: Up): int {
    Waiting(p, up.q) + if up.receiver.Delivering? then SumBy(up.receiver.waiters, One(p)) else 0
  }

  ghost function OwedBy(p: Waiter -> bool): Up -> int { (up: Up) => Owed(p, up) }

  ghost function Total(p: Waiter -> bool, s: State): int { SumBy(s.ups, OwedBy(p)) }

  /** Accepted requests are answered or still owed a callback, for every kind p of request. */
  ghost predicate Conserved(p: Waiter -> bool, s: State) {
    SumBy(s.accepted, One(p)) == SumBy(s.answers, OneAnswer(p)) + Total(p, s)
  }

  lemma {:induction false} ErrorsCount(p: Waiter -> bool, ws: seq<Waiter>)
    ensures SumBy(Errors(ws), OneAnswer(p)) == SumBy(ws, One(p))
  {
    if ws != [] {
      assert Errors(ws)[1..] == Errors(ws[1..]);
      ErrorsCount(p, ws[1..]);
    }
  }

  lemma KeepsCallBack(p: Waiter -> bool, s: State, u: nat, up: Up, calls: seq<Answer>)
    requires u < |s.ups| && Conserved(p, s) && Owed(p, up) + SumBy(calls, OneAnswer(p)) == Owed(p, s.ups[u])
    ensures Conserved(p, CallBack(s, u, up, calls))
  {
    SumUpdate(s.ups, u, up, OwedBy(p));
    SumConcat(s.answers, calls, OneAnswer(p));
  }

  lemma KeepsErrors(p: Waiter -> bool, s: State, u: nat, up: Up, calls: seq<Waiter>)
    requires u < |s.ups| && Conserved(p, s) && Owed(p, up) + SumBy(calls, One(p)) == Owed(p, s.ups[u])
    ensures Conserved(p, CallBack(s, u, up, Errors(calls)))
  {
    ErrorsCount(p, calls);
    KeepsCallBack(p, s, u, up, Errors(calls));
  }

  lemma KeepsSetUp(p: Waiter -> bool, s: State, u: nat, up: Up)
    requires u < |s.ups| && Conserved(p, s) && Owed(p, up) == Owed(p, s.ups[u])
    ensures Conserved(p, SetUp(s, u, up))
  {
    SumUpdate(s.ups, u, up, OwedBy(p));
  }

  lemma ConservedAsk(remote: Data, p: Waiter -> bool, s: State, a: Action)
    requires Enabled(remote, s, a) && Conserved(p, s) && (a.AskUplink? || a.AskFuse?)
    ensures Conserved(p, Apply(remote, s, a))
  {
    var r := Request(a.cfg, |remote|, s.ups[a.u].q, a.ask, a.addr, a.preAddr);
    if r.Accepted? {
      RequestCounts(a.cfg, |remote|, p, s.ups[a.u].q, a.ask, a.addr, a.preAddr);
      SumUpdate(s.ups, a.u, s.ups[a.u].(q := r.q), OwedBy(p));
      SumConcat(s.accepted, [WaiterOf(a.ask)], One(p));
    }
  }

  lemma ConservedReceive(remote: Data, p: Waiter -> bool, s: State, a: Action)
    requires Enabled(remote, s, a) && Conserved(p, s) && (a.Unlink? || a.Deliver?)
    ensures Conserved(p, Apply(remote, s, a))
  {
    var up := s.ups[a.u];
    if a.Unlink? {
      var k := IndexAt(up.q.entries, up.receiver.addr, up.receiver.handle);
      if k < |up.q.entries| && up.q.len > 0 {
        DropCounts(p, up.q, k);
      }
      KeepsSetUp(p, s, a.u, UnlinkUp(up));
    } else {
      var r := up.receiver;
      var w := r.waiters[0];
      KeepsCallBack(p, s, a.u, up.(receiver := r.(waiters := r.waiters[1..])),
        [Answer(w, Some(Slice(r.buffer, w.from - r.from, w.to - r.from)))]);
    }
  }

  lemma ConservedCancel(remote: Data, p: Waiter -> bool, s: State, a: Action)
    requires Enabled(remote, s, a) && Conserved(p, s) && (a.Shutdown? || a.CancelPass? || a.Leave?)
    ensures Conserved(p, Apply(remote, s, a))
  {
    var up := s.ups[a.u];
    AllCounts(p, up.q);
    match a {
      case Leave(c, u) =>
        RemoveCounts(p, up.q, ClientOf(c));
        KeepsErrors(p, s, u, up.(q := Remove(up.q, ClientOf(c))), Dismissed(up.q.entries, ClientOf(c)));
      case Shutdown(u) =>
        KeepsErrors(p, s, u, up.(q := Cancel(up.q).(shutdown := true), installed := false), AllWaiters(up.q.entries));
      case CancelPass(u) =>
        if up.installed {
          KeepsErrors(p, s, u, up.(q := Cancel(up.q), thread := Cancelled), AllWaiters(up.q.entries));
        } else {
          KeepsSetUp(p, s, u, up.(thread := Done));
        }
    }
  }

  /** Every step keeps the balance of accepted, answered and owed requests. */
  lemma KeepsConserved(remote: Data, p: Waiter -> bool, s: State, a: Action)
    requires Enabled(remote, s, a) && Conserved(p, s)
    ensures Conserved(p, Apply(remote, s, a))
  {
    match a {
      case Init => SumConcat(s.ups, [Up(Queue([], 0, 0, false), true, Running, Idle, false)], OwedBy(p));
      case Begin(_) =>
      case GiveUp(_) =>
      case AskUplink(_, _, _, _, _, _) => ConservedAsk(remote, p, s, a);
      case AskFuse(_, _, _, _, _) => ConservedAsk(remote, p, s, a);
      case Replicate(u, cfg, ask, addr, preAddr) =>
        var r := Request(cfg, |remote|, s.ups[u].q, ask, addr, preAddr);
        if r.Accepted? {
          RequestCounts(cfg, |remote|, p, s.ups[u].q, ask, addr, preAddr);
          KeepsSetUp(p, s, u, s.ups[u].(q := r.q));
        }
      case MarkSent(u, q) =>
        SentCounts(p, s.ups[u].q, q);
        KeepsSetUp(p, s, u, s.ups[u].(q := q));
      case Unlink(_) => ConservedReceive(remote, p, s, a);
      case Deliver(_) => ConservedReceive(remote, p, s, a);
      case Leave(_, _) => ConservedCancel(remote, p, s, a);
      case Shutdown(_) => ConservedCancel(remote, p, s, a);
      case CancelPass(_) => ConservedCancel(remote, p, s, a);
      case _ => KeepsSetUp(p, s, a.u, Apply(remote, s, a).ups[a.u]);
    }
  }

  // ----- the 8-bit counters -----

  ghost function Busy(s: State, c: nat): int
    requires c < |s.asking|
  {
    if s.asking[c] then 1 else 0
  }

  ghost predicate CounterOk(s: State, c: nat) {
    c < |s.relayed| == |s.asking| && s.relayed[c] == Total(Of(c), s) + Busy(s, c) && s.relayed[c] <= 251
  }

  lemma TotalNonNegative(p: Waiter -> bool, s: State)
    ensures Total(p, s) >= 0
  {
    forall i | 0 <= i < |s.ups| ensures OwedBy(p)(s.ups[i]) >= 0 {
      var up := s.ups[i];
      forall j | 0 <= j < |up.q.entries| ensures OfEntry(p)(up.q.entries[j]) >= 0 {
        SumNonNegative(up.q.entries[j].clients, One(p));
      }
      SumNonNegative(up.q.entries, OfEntry(p));
      if up.receiver.Delivering? {
        SumNonNegative(up.receiver.waiters, One(p));
      }
    }
    SumNonNegative(s.ups, OwedBy(p));
  }

  lemma CallsAreOwed(p: Waiter -> bool, s: State, s': State, calls: seq<Answer>)
    requires Conserved(p, s) && Conserved(p, s') && s'.accepted == s.accepted && s'.answers == s.answers + calls
    ensures Total(p, s') + SumBy(calls, OneAnswer(p)) == Total(p, s)
    ensures Total(p, s') >= 0 && SumBy(calls, OneAnswer(p)) >= 0
  {
    SumConcat(s.answers, calls, OneAnswer(p));
    TotalNonNegative(p, s');
    forall i | 0 <= i < |calls| ensures OneAnswer(p)(calls[i]) >= 0 {}
    SumNonNegative(calls, OneAnswer(p));
  }

  lemma NoWrap(counter: nat, calls: int, left: int, busy: int)
    requires counter <= 251 && calls >= 0 && left >= 0 && 0 <= busy && counter == left + calls + busy
    ensures (counter - calls) % 256 == left + busy <= 251
  {
  }

  /** Lowering by the callbacks just made never wraps. */
  lemma LoweredOk(s: State, u: nat, up: Up, calls: seq<Answer>, c: nat)
    requires u < |s.ups| && c < |s.relayed| == |s.asking| && CounterOk(s, c)
    requires Conserved(Of(c), s) && Conserved(Of(c), CallBack(s, u, up, calls))
    ensures CounterOk(CallBack(s, u, up, calls), c)
  {
    var s' := CallBack(s, u, up, calls);
    CallsAreOwed(Of(c), s, s', calls);
    NoWrap(s.relayed[c], SumBy(calls, OneAnswer(Of(c))), Total(Of(c), s'), Busy(s, c));
  }

  predicate CallsBack(a: Action) { a.Leave? || a.Shutdown? || a.CancelPass? || a.Deliver? }

  lemma CounterCalls(remote: Data, s: State, a: Action, c: nat)
    requires Enabled(remote, s, a) && CallsBack(a) && |s.relayed| == |s.asking| && c < |s.relayed|
    requires CounterOk(s, c) && Conserved(Of(c), s) && Conserved(Of(c), Apply(remote, s, a))
    ensures CounterOk(Apply(remote, s, a), c)
  {
    var s' := Apply(remote, s, a);
    match a {
      case Leave(d, u) => LoweredOk(s, u, s'.ups[u], Errors(Dismissed(s.ups[u].q.entries, ClientOf(d))), c);
      case Shutdown(u) => LoweredOk(s, u, s'.ups[u], Errors(AllWaiters(s.ups[u].q.entries)), c);
      case CancelPass(u) =>
        if s.ups[u].installed { LoweredOk(s, u, s'.ups[u], Errors(AllWaiters(s.ups[u].q.entries)), c); }
      case Deliver(u) => LoweredOk(s, u, s'.ups[u], s'.answers[|s.answers|..], c);
    }
  }

  lemma CounterAsk(remote: Data, s: State, a: Action, c: nat)
    requires Enabled(remote, s, a) && (a.AskUplink? || a.AskFuse?) && |s.relayed| == |s.asking| && c < |s.relayed|
    requires CounterOk(s, c) && Conserved(Of(c), s) && Conserved(Of(c), Apply(remote, s, a))
    ensures CounterOk(Apply(remote, s, a), c)
  {
    SumConcat(s.accepted, [WaiterOf(a.ask)], One(Of(c)));
  }

  lemma CounterOther(remote: Data, s: State, a: Action, c: nat)
    requires Enabled(remote, s, a) && !CallsBack(a) && !a.AskUplink? && !a.AskFuse? && |s.relayed| == |s.asking|
    requires c < |s.relayed|
    requires CounterOk(s, c) && Conserved(Of(c), s) && Conserved(Of(c), Apply(remote, s, a))
    ensures CounterOk(Apply(remote, s, a), c)
  {
    TotalNonNegative(Of(c), s);
    OtherFields(remote, s, a);
  }

  /**
   Steps without callbacks and client requests leave the accounts alone, and the counters but for begin
   and give up.
   */
  lemma OtherFields(remote: Data, s: State, a: Action)
    requires Enabled(remote, s, a) && !CallsBack(a) && !a.AskUplink? && !a.AskFuse?
    ensures Apply(remote, s, a).accepted == s.accepted && Apply(remote, s, a).answers == s.answers
    ensures !a.Begin? && !a.GiveUp? ==>
      Apply(remote, s, a).relayed == s.relayed && Apply(remote, s, a).asking == s.asking
  {
  }

  /** Every step keeps every counter equal to the requests its client has under way. */
  lemma KeepsCounter(remote: Data, s: State, a: Action, c: nat)
    requires Enabled(remote, s, a) && |s.relayed| == |s.asking| && c < |s.relayed|
    requires CounterOk(s, c) && Conserved(Of(c), s)
    ensures |Apply(remote, s, a).relayed| == |Apply(remote, s, a).asking| == |s.relayed|
    ensures CounterOk(Apply(remote, s, a), c)
  {
    KeepsConserved(remote, Of(c), s, a);
    if CallsBack(a) {
      CounterCalls(remote, s, a, c);
    } else if a.AskUplink? || a.AskFuse? {
      CounterAsk(remote, s, a, c);
    } else {
      CounterOther(remote, s, a, c);
    }
  }

  // ----- the data handed over -----

  /** A data callback carries exactly the bytes of the remote image its client asked for. */
  ghost predicate Faithful(remote: Data, a: Answer) {
    a.bytes.Some? ==> a.waiter.from <= a.waiter.to <= |remote| && a.bytes.value == remote[a.waiter.from..a.waiter.to]
  }

  ghost predicate AllFaithful(remote: Data, s: State) {
    forall i :: 0 <= i < |s.answers| ==> Faithful(remote, s.answers[i])
  }

  lemma SliceOfSlice(remote: Data, buffer: Data, from: nat, a: nat, b: nat)
    requires from + |buffer| <= |remote| && buffer == remote[from..from + |buffer|] && from <= a <= b <= from + |buffer|
    ensures Slice(buffer, a - from, b - from) == remote[a..b]
  {
    var part := buffer[a - from..b - from];
    forall i | 0 <= i < |part| ensures part[i] == remote[a..b][i] {
      assert part[i] == buffer[a - from + i] == remote[from..from + |buffer|][a - from + i];
    }
  }

  lemma KeepsFaithful(remote: Data, s: State, a: Action)
    requires Enabled(remote, s, a) && AllFaithful(remote, s)
    requires forall u :: 0 <= u < |s.ups| ==> UpInv(remote, s.ups[u])
    ensures AllFaithful(remote, Apply(remote, s, a))
  {
    if a.Deliver? {
      var r := s.ups[a.u].receiver;
      var w := r.waiters[0];
      assert ReceiverOk(remote, s.ups[a.u]);
      SliceOfSlice(remote, r.buffer, r.from, w.from, w.to);
    }
  }

  // ----- whole runs -----

  ghost predicate Fresh(s: State) {
    && s.ups == [] && s.accepted == [] && s.answers == [] && |s.relayed| == |s.asking|
    && forall c :: 0 <= c < |s.relayed| ==> s.relayed[c] == 0 && !s.asking[c]
  }

  ghost predicate Step(remote: Data, s: State, s': State) {
    exists a :: Enabled(remote, s, a) && s' == Apply(remote, s, a)
  }

  ghost function Start(): State -> bool { (s: State) => Fresh(s) }

  ghost function Next(remote: Data): (State, State) -> bool { (s: State, s': State) => Step(remote, s, s') }

  ghost predicate SystemInv(remote: Data, s: State) {
    && |s.relayed| == |s.asking| && AllFaithful(remote, s)
    && (forall u :: 0 <= u < |s.ups| ==> UpInv(remote, s.ups[u]))
    && (forall c :: 0 <= c < |s.relayed| ==> CounterOk(s, c) && Conserved(Of(c), s))
  }

  lemma KeepsSystem(remote: Data, s: State, a: Action)
    requires |remote| % BLOCK == 0 && Enabled(remote, s, a) && SystemInv(remote, s)
    ensures SystemInv(remote, Apply(remote, s, a))
  {
    var s' := Apply(remote, s, a);
    KeepsFaithful(remote, s, a);
    forall u | 0 <= u < |s'.ups| ensures UpInv(remote, s'.ups[u]) {
      if u < |s.ups| { KeepsUp(remote, s, a, u); }
    }
    forall c | 0 <= c < |s'.relayed| ensures CounterOk(s', c) && Conserved(Of(c), s') {
      KeepsCounter(remote, s, a, c);
      KeepsConserved(remote, Of(c), s, a);
    }
  }

  lemma ReachedInv(remote: Data, s: State)
    requires |remote| % BLOCK == 0 && Reachable(Start(), Next(remote), s)
    ensures SystemInv(remote, s)
  {
    var inv := (x: State) => SystemInv(remote, x);
    forall x, y | inv(x) && Next(remote)(x, y) ensures inv(y) {
      var a :| Enabled(remote, x, a) && y == Apply(remote, x, a);
      KeepsSystem(remote, x, a);
    }
    Always(Start(), Next(remote), inv, s);
  }

  /** For every kind of request, accepted ones are exactly those answered and those still owed a callback. */
  lemma ExactlyOnce(remote: Data, p: Waiter -> bool, s: State)
    requires Reachable(Start(), Next(remote), s)
    ensures SumBy(s.accepted, One(p)) == SumBy(s.answers, OneAnswer(p)) + Total(p, s) && Total(p, s) >= 0
  {
    var inv := (x: State) => Conserved(p, x);
    forall x, y | inv(x) && Next(remote)(x, y) ensures inv(y) {
      var a :| Enabled(remote, x, a) && y == Apply(remote, x, a);
      KeepsConserved(remote, p, x, a);
    }
    Always(Start(), Next(remote), inv, s);
    TotalNonNegative(p, s);
  }

  ghost function Owners(answers: seq<Answer>): seq<Waiter> {
    seq(|answers|, i requires 0 <= i < |answers| => answers[i].waiter)
  }

  lemma {:induction false} CountIsMultiplicity(ws: seq<Waiter>, w: Waiter)
    ensures SumBy(ws, One((x: Waiter) => x == w)) == multiset(ws)[w]
  {
    if ws != [] {
      assert ws == [ws[0]] + ws[1..];
      CountIsMultiplicity(ws[1..], w);
    }
  }

  lemma {:induction false} OwnersCount(p: Waiter -> bool, answers: seq<Answer>)
    ensures SumBy(Owners(answers), One(p)) == SumBy(answers, OneAnswer(p))
  {
    if answers != [] {
      assert Owners(answers)[1..] == Owners(answers[1..]);
      OwnersCount(p, answers[1..]);
    }
  }

  /**
   Once all uplinks are shut down and their threads are past delivering, every accepted request was
   called back exactly once.
   */
  lemma ShutdownAnswersAll(remote: Data, s: State)
    requires |remote| % BLOCK == 0 && Reachable(Start(), Next(remote), s)
    requires forall u :: 0 <= u < |s.ups| ==> !s.ups[u].installed && !s.ups[u].receiver.Delivering?
    ensures multiset(s.accepted) == multiset(Owners(s.answers))
    ensures |s.asking| == |s.relayed| && forall c :: 0 <= c < |s.relayed| && !s.asking[c] ==> s.relayed[c] == 0
  {
    ReachedInv(remote, s);
    forall p: Waiter -> bool ensures Total(p, s) == 0 {
      forall u | 0 <= u < |s.ups| ensures OwedBy(p)(s.ups[u]) == 0 {
        assert LifeOk(s.ups[u]);
      }
      SumZero(s.ups, OwedBy(p));
    }
    forall w ensures multiset(s.accepted)[w] == multiset(Owners(s.answers))[w] {
      var p := (x: Waiter) => x == w;
      ExactlyOnce(remote, p, s);
      CountIsMultiplicity(s.accepted, w);
      OwnersCount(p, s.answers);
      CountIsMultiplicity(Owners(s.answers), w);
      assert Total(p, s) == 0;
    }
    forall c | 0 <= c < |s.relayed| && !s.asking[c] ensures s.relayed[c] == 0 {
      assert CounterOk(s, c) && Total(Of(c), s) == 0;
    }
  }

  /** A client's 8-bit counter is always the number of its requests under way; it never wraps or exceeds 251. */
  lemma RelayedCountsOutstanding(remote: Data, s: State, c: nat)
    requires |remote| % BLOCK == 0 && Reachable(Start(), Next(remote), s) && c < |s.relayed|
    ensures |s.asking| == |s.relayed|
    ensures s.relayed[c] == SumBy(s.accepted, One(Of(c))) - SumBy(s.answers, OneAnswer(Of(c))) + Busy(s, c)
    ensures s.relayed[c] <= 251
  {
    ReachedInv(remote, s);
    assert CounterOk(s, c) && Conserved(Of(c), s);
  }

  /** Every reachable queue is well formed and every data callback delivered exactly the bytes asked for. */
  lemma DeliversRemoteBytes(remote: Data, s: State)
    requires |remote| % BLOCK == 0 && Reachable(Start(), Next(remote), s)
    ensures forall u :: 0 <= u < |s.ups| ==> QInv(|remote|, s.ups[u].q)
    ensures forall i :: 0 <= i < |s.answers| ==> Faithful(remote, s.answers[i])
  {
    ReachedInv(remote, s);
    forall u | 0 <= u < |s.ups| ensures QInv(|remote|, s.ups[u].q) {
      assert UpInv(remote, s.ups[u]);
    }
  }

  /** The queue is empty whenever the image no longer points to the uplink, so in particular when it is freed. */
  lemma FreedEmpty(remote: Data, s: State, u: nat)
    requires |remote| % BLOCK == 0 && Reachable(Start(), Next(remote), s) && u < |s.ups|
    ensures !s.ups[u].installed ==> s.ups[u].q.entries == [] && s.ups[u].q.len == 0 && s.ups[u].q.shutdown
    ensures s.ups[u].freed ==> s.ups[u].q.len == 0 && s.ups[u].receiver.Idle?
  {
    ReachedInv(remote, s);
    assert UpInv(remote, s.ups[u]);
  }
}
