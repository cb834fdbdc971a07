/**
 What the lock sections of `uplink.c` are for, over whole calls: a reply reaches everyone who waits for
 it, a client that leaves and an uplink that goes away leave nobody waiting.
 */
module UplinkEffects {
  import opened Options
  import opened Runs
  import opened Sums
  import opened Units
  import opened UplinkQueue
  import opened UplinkRuns

  ghost function Steps(remote: Data): (State, Action, State) -> bool {
    (s: State, a: Action, s': State) => Enabled(remote, s, a) && s' == Apply(remote, s, a)
  }

  // ----- a reply -----

  /** The callbacks that hand each waiter the bytes it asked for. */
  ghost function DataFor(remote: Data, ws: seq<Waiter>): seq<Answer>
    requires forall i :: 0 <= i < |ws| ==> ws[i].from <= ws[i].to <= |remote|
  {
    seq(|ws|, i requires 0 <= i < |ws| => Answer(ws[i], Some(remote[ws[i].from..ws[i].to])))
  }

  ghost function Delivers(u: nat, n: nat): seq<Action> { seq(n, _ => Deliver(u)) }

  /** s' is s after some callbacks, with uplink u at `up`. */
  ghost predicate Called(s: State, s': State, u: nat, up: Up, calls: seq<Answer>) {
    && u < |s.ups| && s'.ups == s.ups[u := up] && s'.answers == s.answers + calls
    && s'.accepted == s.accepted && s'.asking == s.asking && |s'.relayed| == |s.relayed|
  }

  lemma CalledOnce(remote: Data, s: State, u: nat)
    requires u < |s.ups| && UpInv(remote, s.ups[u]) && s.ups[u].receiver.Delivering? && s.ups[u].receiver.waiters != []
    ensures var r := s.ups[u].receiver; var w := r.waiters[0];
      && Enabled(remote, s, Deliver(u)) && w.from <= w.to <= |remote|
      && Called(s, Apply(remote, s, Deliver(u)), u, s.ups[u].(receiver := r.(waiters := r.waiters[1..])),
                DataFor(remote, [w]))
  {
    var r := s.ups[u].receiver;
    var w := r.waiters[0];
    SliceOfSlice(remote, r.buffer, r.from, w.from, w.to);
    assert DataFor(remote, [w]) == [Answer(w, Some(Slice(r.buffer, w.from - r.from, w.to - r.from)))];
  }

  ghost predicate Within(remote: Data, ws: seq<Waiter>) {
    forall i :: 0 <= i < |ws| ==> ws[i].from <= ws[i].to <= |remote|
  }

  lemma DataSplit(remote: Data, ws: seq<Waiter>)
    requires ws != [] && ws[0].from <= ws[0].to <= |remote| && Within(remote, ws[1..])
    ensures Within(remote, ws) && DataFor(remote, ws) == DataFor(remote, [ws[0]]) + DataFor(remote, ws[1..])
  {
    assert ws == [ws[0]] + ws[1..];
  }

  lemma CalledTwice(s: State, s1: State, s': State, u: nat, up1: Up, up: Up, calls: seq<Answer>, more: seq<Answer>)
    requires Called(s, s1, u, up1, calls) && Called(s1, s', u, up, more)
    ensures Called(s, s', u, up, calls + more)
  {
  }

  lemma {:induction false} CalledAll(remote: Data, s: State, u: nat) returns (s': State)
    requires u < |s.ups| && UpInv(remote, s.ups[u]) && s.ups[u].receiver.Delivering?
    ensures var r := s.ups[u].receiver;
      && Leads(Steps(remote), s, Delivers(u, |r.waiters|), s') && Within(remote, r.waiters)
      && Called(s, s', u, s.ups[u].(receiver := r.(waiters := [])), DataFor(remote, r.waiters))
    decreases |s.ups[u].receiver.waiters|
  {
    var r := s.ups[u].receiver;
    var n := |r.waiters|;
    if n == 0 {
      s' := s;
      assert DataFor(remote, r.waiters) == [];
    } else {
      CalledOnce(remote, s, u);
      var s1 := Apply(remote, s, Deliver(u));
      KeepsReceive(remote, s, Deliver(u), u);
      s' := CalledAll(remote, s1, u);
      assert Delivers(u, n)[0] == Deliver(u) && Delivers(u, n)[1..] == Delivers(u, n - 1);
      DataSplit(remote, r.waiters);
      CalledTwice(s, s1, s', u, s1.ups[u], s'.ups[u], DataFor(remote, [r.waiters[0]]), DataFor(remote, r.waiters[1..]));
    }
  }

  /** What `handleReceive` does with the reply to a handle when nobody comes in between. */
  ghost function Handling(u: nat, handle: nat, n: nat): seq<Action> {
    [Reply(u, handle), Unlink(u)] + Delivers(u, n) + [EndDelivery(u)]
  }

  lemma FindsAndUnlinks(remote: Data, s: State, u: nat, k: nat) returns (s': State)
    requires u < |s.ups| && UpInv(remote, s.ups[u]) && s.ups[u].thread.Running? && s.ups[u].receiver.Idle?
    requires k < |s.ups[u].q.entries|
    ensures var q := s.ups[u].q; var e := q.entries[k];
      && e.from <= e.to <= |remote| && Leads(Steps(remote), s, [Reply(u, e.handle), Unlink(u)], s')
      && Called(s, s', u, s.ups[u].(q := q.(entries := q.entries[..k] + q.entries[k + 1..], len := q.len - 1),
                                    receiver := Delivering(e.from, remote[e.from..e.to], e.clients)), [])
  {
    var q := s.ups[u].q;
    var e := q.entries[k];
    assert EntryOk(|remote|, e);
    OnlyEntry(|remote|, q, k);
    var s1 := Apply(remote, s, Reply(u, e.handle));
    s' := Apply(remote, s1, Unlink(u));
    LeadsTwo(Steps(remote), s, Reply(u, e.handle), s1, Unlink(u), s');
    assert s'.ups == s.ups[u := s'.ups[u]];
  }

  lemma OnlyEntry(size: nat, q: Queue, k: nat)
    requires QInv(size, q) && k < |q.entries|
    ensures IndexOf(q.entries, q.entries[k].handle) == k
    ensures IndexAt(q.entries, q.entries[k].addr, q.entries[k].handle) == k && q.len > 0
  {
    var i := IndexOf(q.entries, q.entries[k].handle);
    var j := IndexAt(q.entries, q.entries[k].addr, q.entries[k].handle);
    assert i <= k && j <= k;
  }

  lemma Keeps(remote: Data, s: State, acts: seq<Action>, s': State)
    requires |remote| % BLOCK == 0 && SystemInv(remote, s) && Leads(Steps(remote), s, acts, s')
    ensures SystemInv(remote, s')
  {
    var inv := (x: State) => SystemInv(remote, x);
    forall x, a, y | inv(x) && Steps(remote)(x, a, y) ensures inv(y) { KeepsSystem(remote, x, a); }
    LeadsKeeps(Steps(remote), inv, s, acts, s');
  }

  /** The counters go down by exactly the callbacks made. */
  lemma CalledCounts(remote: Data, s: State, s': State, u: nat, up: Up, calls: seq<Answer>, c: nat)
    requires SystemInv(remote, s) && SystemInv(remote, s') && Called(s, s', u, up, calls) && c < |s.relayed|
    ensures s'.relayed[c] == s.relayed[c] - SumBy(calls, OneAnswer(Of(c)))
  {
    assert CounterOk(s, c) && CounterOk(s', c) && Conserved(Of(c), s) && Conserved(Of(c), s');
    SumConcat(s.answers, calls, OneAnswer(Of(c)));
  }

  /** Uplink u without entry k. */
  ghost function Dropped(up: Up, k: nat): Up
    requires k < |up.q.entries| && up.q.len > 0
  {
    up.(q := up.q.(entries := up.q.entries[..k] + up.q.entries[k + 1..], len := up.q.len - 1))
  }

  lemma HandlesReply(remote: Data, s: State, u: nat, k: nat) returns (s': State)
    requires |remote| % BLOCK == 0 && u < |s.ups| && UpInv(remote, s.ups[u])
    requires s.ups[u].thread.Running? && s.ups[u].receiver.Idle? && k < |s.ups[u].q.entries|
    ensures var e := s.ups[u].q.entries[k];
      && Within(remote, e.clients) && Leads(Steps(remote), s, Handling(u, e.handle, |e.clients|), s')
      && s.ups[u].q.len > 0 && Called(s, s', u, Dropped(s.ups[u], k), DataFor(remote, e.clients))
  {
    var e := s.ups[u].q.entries[k];
    var n := |e.clients|;
    var s1 := FindsAndUnlinks(remote, s, u, k);
    FoundKeeps(remote, s.ups[u], k);
    var s2 := CalledAll(remote, s1, u);
    s' := Apply(remote, s2, EndDelivery(u));
    LeadsOne(Steps(remote), s2, EndDelivery(u), s');
    LeadsOn(Steps(remote), s, [Reply(u, e.handle), Unlink(u)], s1, Delivers(u, n), s2);
    LeadsOn(Steps(remote), s, [Reply(u, e.handle), Unlink(u)] + Delivers(u, n), s2, [EndDelivery(u)], s');
    assert s'.ups == s.ups[u := s'.ups[u]];
  }

  lemma FoundKeeps(remote: Data, up: Up, k: nat)
    requires UpInv(remote, up) && up.thread.Running? && k < |up.q.entries|
    ensures up.q.len > 0
    ensures var e := up.q.entries[k];
      && e.from <= e.to <= |remote|
      && UpInv(remote, Dropped(up, k).(receiver := Delivering(e.from, remote[e.from..e.to], e.clients)))
  {
    var e := up.q.entries[k];
    assert EntryOk(|remote|, e);
    DropKeeps(|remote|, up.q, k);
  }

  /**
   A reply to a queued request, with its thread undisturbed: every client of the entry, and nobody else, is
   called back exactly once, in order, with the bytes of the remote image it asked for; the entry is gone
   from the queue and the rest of the queue, and all else, is as before.
   */
  lemma ReplyReachesClients(remote: Data, s: State, u: nat, k: nat) returns (s': State)
    requires |remote| % BLOCK == 0 && SystemInv(remote, s) && u < |s.ups|
    requires s.ups[u].thread.Running? && s.ups[u].receiver.Idle? && k < |s.ups[u].q.entries|
    ensures var e := s.ups[u].q.entries[k];
      && Within(remote, e.clients) && Leads(Steps(remote), s, Handling(u, e.handle, |e.clients|), s')
      && s.ups[u].q.len > 0 && Called(s, s', u, Dropped(s.ups[u], k), DataFor(remote, e.clients))
      && (forall i :: 0 <= i < |s'.ups[u].q.entries| ==> s'.ups[u].q.entries[i].handle != e.handle)
      && forall c :: 0 <= c < |s.relayed| ==>
           s'.relayed[c] == s.relayed[c] - SumBy(DataFor(remote, e.clients), OneAnswer(Of(c)))
  {
    var e := s.ups[u].q.entries[k];
    assert UpInv(remote, s.ups[u]);
    s' := HandlesReply(remote, s, u, k);
    Keeps(remote, s, Handling(u, e.handle, |e.clients|), s');
    DropKeeps(|remote|, s.ups[u].q, k);
    forall c | 0 <= c < |s.relayed|
      ensures s'.relayed[c] == s.relayed[c] - SumBy(DataFor(remote, e.clients), OneAnswer(Of(c))) {
      CalledCounts(remote, s, s', u, s'.ups[u], DataFor(remote, e.clients), c);
    }
  }

  // ----- asking, leaving, going away -----

  /**
   A client asks: the call is taken exactly if `Request` takes it; then its waiter is in the queue and counts as
   accepted, and its counter, raised before, stands for it; else nothing changes and it has to give up.
   */
  lemma AskIsQueued(remote: Data, s: State, c: nat, u: nat, cfg: Config, ask: Ask, addr: nat, preAddr: nat)
    requires SystemInv(remote, s) && c < |s.relayed| && !s.asking[c] && s.relayed[c] <= 250
    requires u < |s.ups| && !s.ups[u].freed && ask.client == Some(ClientOf(c))
    requires AskOk(remote, s.ups[u].q, cfg, ask, addr, preAddr)
    ensures Enabled(remote, s, Begin(c))
    ensures var s1, r := Apply(remote, s, Begin(c)), Request(cfg, |remote|, s.ups[u].q, ask, addr, preAddr);
      && s1 == s.(relayed := s.relayed[c := s.relayed[c] + 1], asking := s.asking[c := true])
      && Enabled(remote, s1, AskUplink(c, u, cfg, ask, addr, preAddr))
      && var s2 := Apply(remote, s1, AskUplink(c, u, cfg, ask, addr, preAddr));
      if r.Accepted? then
        s2 == s1.(ups := s.ups[u := s.ups[u].(q := r.q)], asking := s.asking,
                  accepted := s.accepted + [Waiter(Owner(c, ClientCallback), ask.handle, ask.start, ask.End())])
      else s2 == s1 && Enabled(remote, s2, GiveUp(c)) && Apply(remote, s2, GiveUp(c)) == s
  {
    var s1 := Apply(remote, s, Begin(c));
    assert s.asking[c := true][c := false] == s.asking;
    assert s1.relayed[c := (s1.relayed[c] + 255) % 256] == s.relayed;
    assert s1.ups == s.ups;
  }

  /** A replication request, and one of the FUSE module, is queued exactly if `Request` takes it. */
  lemma OthersAreQueued(remote: Data, s: State, u: nat, cfg: Config, ask: Ask, addr: nat, preAddr: nat)
    requires u < |s.ups| && !s.ups[u].freed && AskOk(remote, s.ups[u].q, cfg, ask, addr, preAddr)
    ensures var r := Request(cfg, |remote|, s.ups[u].q, ask, addr, preAddr);
      && (ask.client.Some? && ask.client.value.callback.FuseCallback? ==>
            var a := AskFuse(u, cfg, ask, addr, preAddr);
            && Enabled(remote, s, a)
            && Apply(remote, s, a) == if r.Refused? then s
              else s.(ups := s.ups[u := s.ups[u].(q := r.q)], accepted := s.accepted + [WaiterOf(ask)]))
      && (ask.client.None? && s.ups[u].thread.Running? && s.ups[u].receiver.Idle? ==>
            var a := Replicate(u, cfg, ask, addr, preAddr);
            && Enabled(remote, s, a)
            && Apply(remote, s, a) == if r.Refused? then s else s.(ups := s.ups[u := s.ups[u].(q := r.q)]))
  {
  }

  /** Every waiter is told that there will be no data. */
  ghost predicate AllFailed(calls: seq<Answer>, ws: seq<Waiter>) {
    |calls| == |ws| && forall i :: 0 <= i < |ws| ==> calls[i] == Answer(ws[i], None)
  }

  /** All that wait in the queue, entry by entry. */
  ghost predicate IsEveryone(ws: seq<Waiter>, entries: seq<Entry>) {
    forall p: Waiter -> bool :: SumBy(ws, One(p)) == SumBy(entries, OfEntry(p))
  }

  /**
   A client leaves: it gets an error for each request it has in this uplink, and has none there afterwards;
   nobody else's waiters are touched.
   */
  lemma LeaveFails(remote: Data, s: State, c: nat, u: nat) returns (mine: seq<Waiter>)
    requires |remote| % BLOCK == 0 && SystemInv(remote, s) && c < |s.relayed| && u < |s.ups| && !s.ups[u].freed
    ensures Enabled(remote, s, Leave(c, u))
    ensures var s' := Apply(remote, s, Leave(c, u)); var q, q' := s.ups[u].q, s'.ups[u].q;
      && Called(s, s', u, s.ups[u].(q := q'), s'.answers[|s.answers|..])
      && AllFailed(s'.answers[|s.answers|..], mine) && (forall w :: w in mine ==> w.owner == ClientOf(c))
      && |q'.entries| == |q.entries|
      && (forall i :: 0 <= i < |q.entries| ==>
            q'.entries[i] == q.entries[i].(clients := q'.entries[i].clients))
      && (forall i, w :: 0 <= i < |q.entries| && w in q'.entries[i].clients ==> w.owner != ClientOf(c))
      && forall p: Waiter -> bool :: Waiting(p, q) == Waiting(p, q') + SumBy(mine, One(p))
  {
    var q := s.ups[u].q;
    mine := Dismissed(q.entries, ClientOf(c));
    var s' := Apply(remote, s, Leave(c, u));
    assert s'.answers[|s.answers|..] == Errors(mine);
    DismissedAreMine(q.entries, ClientOf(c));
    assert UpInv(remote, s.ups[u]);
    RemoveKeeps(|remote|, q, ClientOf(c));
    forall p: Waiter -> bool ensures Waiting(p, q) == Waiting(p, s'.ups[u].q) + SumBy(mine, One(p)) {
      RemoveCounts(p, q, ClientOf(c));
    }
  }

  /** An uplink is shut down: everybody waiting gets an error, nobody is left, and no request is taken any more. */
  lemma ShutdownFails(remote: Data, s: State, u: nat) returns (all: seq<Waiter>)
    requires |remote| % BLOCK == 0 && SystemInv(remote, s) && u < |s.ups| && s.ups[u].installed
    ensures Enabled(remote, s, Shutdown(u))
    ensures var s' := Apply(remote, s, Shutdown(u));
      && Called(s, s', u, s'.ups[u], s'.answers[|s.answers|..]) && AllFailed(s'.answers[|s.answers|..], all)
      && IsEveryone(all, s.ups[u].q.entries)
      && s'.ups[u] == s.ups[u].(q := Queue([], 0, s.ups[u].q.lastId, true), installed := false)
      && forall cfg, ask, addr, preAddr :: Request(cfg, |remote|, s'.ups[u].q, ask, addr, preAddr).Refused?
  {
    all := AllWaiters(s.ups[u].q.entries);
    var s' := Apply(remote, s, Shutdown(u));
    assert s'.answers[|s.answers|..] == Errors(all);
    Everyone(s.ups[u].q);
  }

  lemma Everyone(q: Queue)
    ensures IsEveryone(AllWaiters(q.entries), q.entries)
  {
    forall p: Waiter -> bool ensures SumBy(AllWaiters(q.entries), One(p)) == SumBy(q.entries, OfEntry(p)) {
      AllCounts(p, q);
    }
  }

  /** The thread of an uplink nobody shut down closes it: the same, in four steps, and the uplink is freed. */
  lemma CleanupFails(remote: Data, s: State, u: nat) returns (s': State, calls: seq<Answer>, all: seq<Waiter>)
    requires |remote| % BLOCK == 0 && SystemInv(remote, s) && u < |s.ups| && s.ups[u].installed
    requires s.ups[u].thread.Running? && s.ups[u].receiver.Idle?
    ensures Leads(Steps(remote), s, [Close(u), CancelPass(u), Unset(u), Free(u)], s')
    ensures Called(s, s', u, Up(Queue([], 0, s.ups[u].q.lastId, true), false, Done, Idle, true), calls)
    ensures AllFailed(calls, all) && IsEveryone(all, s.ups[u].q.entries)
  {
    all := AllWaiters(s.ups[u].q.entries);
    calls := Errors(all);
    Everyone(s.ups[u].q);
    assert UpInv(remote, s.ups[u]);
    var s2 := ClosesAndCancels(remote, s, u);
    var s3 := Apply(remote, s2, Unset(u));
    s' := Apply(remote, s3, Free(u));
    LeadsTwo(Steps(remote), s2, Unset(u), s3, Free(u), s');
    LeadsOn(Steps(remote), s, [Close(u), CancelPass(u)], s2, [Unset(u), Free(u)], s');
    assert [Close(u), CancelPass(u)] + [Unset(u), Free(u)] == [Close(u), CancelPass(u), Unset(u), Free(u)];
  }

  lemma ClosesAndCancels(remote: Data, s: State, u: nat) returns (s': State)
    requires u < |s.ups| && s.ups[u].installed && s.ups[u].thread.Running? && s.ups[u].receiver.Idle?
    ensures Leads(Steps(remote), s, [Close(u), CancelPass(u)], s')
    ensures Called(s, s', u, s.ups[u].(q := Queue([], 0, s.ups[u].q.lastId, true), thread := Cancelled),
                   Errors(AllWaiters(s.ups[u].q.entries)))
  {
    var s1 := Apply(remote, s, Close(u));
    s' := Apply(remote, s1, CancelPass(u));
    LeadsTwo(Steps(remote), s, Close(u), s1, CancelPass(u), s');
  }

  /** One that was shut down only has to end. */
  lemma CleanupAfterShutdown(remote: Data, s: State, u: nat) returns (s': State)
    requires |remote| % BLOCK == 0 && SystemInv(remote, s) && u < |s.ups| && !s.ups[u].installed
    requires s.ups[u].thread.Running? && s.ups[u].receiver.Idle?
    ensures Leads(Steps(remote), s, [Close(u), CancelPass(u), Free(u)], s')
    ensures Called(s, s', u, Up(s.ups[u].q, false, Done, Idle, true), [])
  {
    assert LifeOk(s.ups[u]);
    var s1 := Apply(remote, s, Close(u));
    var s2 := Apply(remote, s1, CancelPass(u));
    s' := Apply(remote, s2, Free(u));
    LeadsThree(Steps(remote), s, Close(u), s1, CancelPass(u), s2, Free(u), s');
  }

  // ----- the small steps -----

  /** A new uplink is installed with an empty queue and its thread running. */
  lemma InitInstalls(remote: Data, s: State)
    ensures Leads(Steps(remote), s, [Init], s.(ups := s.ups + [Up(Queue([], 0, 0, false), true, Running, Idle, false)]))
  {
    LeadsOne(Steps(remote), s, Init, Apply(remote, s, Init));
  }

  /** Drawing a handle and marking entries as sent or unsent do just that. */
  lemma DrawAndMark(remote: Data, s: State, u: nat, k: nat, sent: bool)
    requires u < |s.ups| && !s.ups[u].freed && k < |s.ups[u].q.entries|
    ensures var up := s.ups[u]; var q := up.q;
      && (up.thread.Running? ==>
            Leads(Steps(remote), s, [DrawHandle(u)], s.(ups := s.ups[u := up.(q := q.(lastId := q.lastId + 1))])))
      && var q' := q.(entries := q.entries[k := q.entries[k].(sent := sent)]);
         Leads(Steps(remote), s, [MarkSent(u, q')], s.(ups := s.ups[u := up.(q := q')]))
  {
    var up := s.ups[u];
    var q' := up.q.(entries := up.q.entries[k := up.q.entries[k].(sent := sent)]);
    if up.thread.Running? { LeadsOne(Steps(remote), s, DrawHandle(u), Apply(remote, s, DrawHandle(u))); }
    LeadsOne(Steps(remote), s, MarkSent(u, q'), Apply(remote, s, MarkSent(u, q')));
  }

  /** All this starts with no uplink and clients that have asked for nothing. */
  lemma StartsEmpty(n: nat)
    ensures UplinkRuns.Start()(State([], seq(n, _ => 0), seq(n, _ => false), [], []))
  {
  }
}
