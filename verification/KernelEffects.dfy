/**
 What the queues of the kernel client are for: where a request comes from decides where it goes, every
 ending has its reason, and the passes over a queue move all of it.
 */
module KernelEffects {
  import opened KernelRequests
  import opened Runs

  // ----- where the requests of a local list come from -----

  ghost predicate Awaited(s: State, rq: nat) { exists i :: 0 <= i < |s.recv| && s.recv[i].rq == rq }

  /** The step puts the request on local list k, to be sent: it is new, timed out, or requeued. */
  ghost predicate ListsToSend(s: State, a: Action, k: nat, rq: nat) {
    || a == Start(k, rq)
    || (Awaited(s, rq) && (a == TimeOut(k, rq) || a == GrabRecv(k, true) || a == SwitchGrab(k, true)))
  }

  /** The step puts the request on local list k, to be failed: a failing pass grabbed it. */
  ghost predicate ListsToFail(s: State, a: Action, k: nat, rq: nat) {
    || (Awaited(s, rq) && (a == GrabRecv(k, false) || a == SwitchGrab(k, false)))
    || (rq in s.send && a == GrabSend(k))
  }

  /** Step m put the request on list k, where it has been since. */
  ghost predicate ListedAt(ss: seq<State>, acts: seq<Action>, m: nat, n: nat, k: nat, rq: nat, resend: bool)
    requires m < n <= |acts| < |ss|
  {
    && (if resend then ListsToSend(ss[m], acts[m], k, rq) else ListsToFail(ss[m], acts[m], k, rq))
    && forall j :: m < j <= n ==> k < |ss[j].locals| && rq in ss[j].locals[k].list
  }

  ghost function Steps(): (State, Action, State) -> bool {
    (s: State, a: Action, s': State) => Enabled(s, a) && s' == Apply(s, a)
  }

  lemma StepAt(ss: seq<State>, acts: seq<Action>, n: nat)
    requires IsTrace(Init(), Steps(), ss, acts) && n < |acts|
    ensures Enabled(ss[n], acts[n]) && ss[n + 1] == Apply(ss[n], acts[n])
  {
    assert Steps()(ss[n], acts[n], ss[n + 1]);
  }

  /** The requests of a queue, newest first. */
  function NewestFirst(rqs: seq<nat>): seq<nat> {
    seq(|rqs|, i requires 0 <= i < |rqs| => rqs[|rqs| - 1 - i])
  }

  function Requests(recv: seq<Sent>): seq<nat> { seq(|recv|, i requires 0 <= i < |recv| => recv[i].rq) }

  lemma NewestStep(rqs: seq<nat>)
    requires rqs != []
    ensures NewestFirst(rqs) == [rqs[|rqs| - 1]] + NewestFirst(rqs[..|rqs| - 1])
  {
    var rest := rqs[..|rqs| - 1];
    forall i | 0 < i < |rqs| ensures NewestFirst(rqs)[i] == NewestFirst(rest)[i - 1] {}
  }

  lemma {:induction false} ReversedIsNewestFirst(recv: seq<Sent>)
    ensures Reversed(recv) == NewestFirst(Requests(recv))
  {
    if recv != [] {
      ReversedIsNewestFirst(recv[..|recv| - 1]);
      NewestStep(Requests(recv));
      assert Requests(recv[..|recv| - 1]) == Requests(recv)[..|recv| - 1];
    }
  }

  lemma {:induction false} ReversedRqsIsNewestFirst(send: seq<nat>)
    ensures ReversedRqs(send) == NewestFirst(send)
  {
    if send != [] {
      ReversedRqsIsNewestFirst(send[..|send| - 1]);
      NewestStep(send);
    }
  }

  lemma InReversed(recv: seq<Sent>, rq: nat)
    ensures rq in Reversed(recv) <==> exists i :: 0 <= i < |recv| && recv[i].rq == rq
  {
    ReversedIsNewestFirst(recv);
    InNewestFirst(Requests(recv), rq);
    forall i | 0 <= i < |recv| ensures Requests(recv)[i] == recv[i].rq {}
  }

  lemma InNewestFirst(rqs: seq<nat>, rq: nat)
    ensures rq in NewestFirst(rqs) <==> rq in rqs
  {
    forall i | 0 <= i < |rqs| ensures NewestFirst(rqs)[|rqs| - 1 - i] == rqs[i] {}
  }

  /** What is on a list after a step was on it before, for the same purpose, or was put there by the step. */
  lemma ListStep(s: State, a: Action, k: nat, rq: nat)
    requires Enabled(s, a) && k < |Apply(s, a).locals| && rq in Apply(s, a).locals[k].list
    ensures k < |s.locals|
    ensures var resend := Apply(s, a).locals[k].resend;
      || (rq in s.locals[k].list && s.locals[k].resend == resend)
      || (if resend then ListsToSend(s, a, k, rq) else ListsToFail(s, a, k, rq))
  {
    InReversed(s.recv, rq);
    ReversedRqsIsNewestFirst(s.send);
    InNewestFirst(s.send, rq);
  }

  lemma {:induction false} ListedSince(ss: seq<State>, acts: seq<Action>, n: nat, k: nat, rq: nat)
    requires IsTrace(Init(), Steps(), ss, acts) && n < |ss| && k < |ss[n].locals| && rq in ss[n].locals[k].list
    ensures exists m :: 0 <= m < n && ListedAt(ss, acts, m, n, k, rq, ss[n].locals[k].resend)
  {
    if n > 0 {
      var l := n - 1;
      StepAt(ss, acts, l);
      ListStep(ss[l], acts[l], k, rq);
      var resend := ss[n].locals[k].resend;
      if rq in ss[l].locals[k].list && ss[l].locals[k].resend == resend {
        ListedSince(ss, acts, l, k, rq);
        var m :| 0 <= m < l && ListedAt(ss, acts, m, l, k, rq, resend);
        assert ListedAt(ss, acts, m, n, k, rq, resend);
      } else {
        assert ListedAt(ss, acts, l, n, k, rq, resend);
      }
    }
  }

  /**
   In every run, a request given from a local list goes where its history says: to the tail of the send
   queue if it was put on the list as new, timed out or requeued; to its end if a failing pass grabbed it.
   */
  lemma GivenByOrigin(ss: seq<State>, acts: seq<Action>, n: nat, k: nat)
    requires IsTrace(Init(), Steps(), ss, acts) && n < |acts| && acts[n] == Give(k)
    ensures k < |ss[n].locals| && ss[n].locals[k].list != []
    ensures var s, s', rq := ss[n], ss[n + 1], ss[n].locals[k].list[0];
      || (s'.send == s.send + [rq] && s'.ended == s.ended
          && exists m :: 0 <= m < n && ListedAt(ss, acts, m, n, k, rq, true))
      || (s'.ended == s.ended + [rq] && s'.send == s.send
          && exists m :: 0 <= m < n && ListedAt(ss, acts, m, n, k, rq, false))
  {
    StepAt(ss, acts, n);
    ListedSince(ss, acts, n, k, ss[n].locals[k].list[0]);
  }

  /**
   In every run, a request ends for one of two reasons: its own reply was received completely, or a
   failing pass had grabbed it.
   */
  lemma EndsForReason(ss: seq<State>, acts: seq<Action>, n: nat)
    requires IsTrace(Init(), Steps(), ss, acts) && n < |acts|
    ensures ss[n + 1].ended == ss[n].ended
      || (acts[n] == RecvEnd && ss[n].receiver.Holding? && ss[n + 1].ended == ss[n].ended + [ss[n].receiver.rq])
      || (exists k: nat, m: nat :: FailedBy(ss, acts, m, n, k))
  {
    StepAt(ss, acts, n);
    if acts[n].Give? && !ss[n].locals[acts[n].k].resend {
      var k := acts[n].k;
      ListedSince(ss, acts, n, k, ss[n].locals[k].list[0]);
      var m :| 0 <= m < n && ListedAt(ss, acts, m, n, k, ss[n].locals[k].list[0], false);
      assert FailedBy(ss, acts, m, n, k);
    }
  }

  ghost predicate FailedBy(ss: seq<State>, acts: seq<Action>, m: nat, n: nat, k: nat)
    requires n < |acts| < |ss|
  {
    && m < n && acts[n] == Give(k) && k < |ss[n].locals| && ss[n].locals[k].list != []
    && ss[n + 1].ended == ss[n].ended + [ss[n].locals[k].list[0]]
    && ListedAt(ss, acts, m, n, k, ss[n].locals[k].list[0], false)
  }

  // ----- whole passes, with nobody in between -----

  ghost function Gives(k: nat, n: nat): seq<Action> { seq(n, _ => Give(k)) }

  /** All of a local list appended to the send queue, or all of it ended, in order. */
  ghost function Given(s: State, k: nat): State
    requires k < |s.locals|
  {
    var l := s.locals[k];
    s.(locals := s.locals[k := l.(list := [])],
       send := if l.resend then s.send + l.list else s.send,
       ended := if l.resend then s.ended else s.ended + l.list)
  }

  lemma GivenStep(s: State, k: nat)
    requires k < |s.locals| && s.locals[k].list != []
    ensures Enabled(s, Give(k)) && k < |Apply(s, Give(k)).locals| && Given(Apply(s, Give(k)), k) == Given(s, k)
    ensures Apply(s, Give(k)).locals[k].list == s.locals[k].list[1..]
  {
    var l, s1 := s.locals[k], Apply(s, Give(k));
    assert l.list == [l.list[0]] + l.list[1..];
    assert s.send + l.list == s.send + [l.list[0]] + l.list[1..];
    assert s.ended + l.list == s.ended + [l.list[0]] + l.list[1..];
    assert s1.locals[k := l.(list := [])] == s.locals[k := l.(list := [])];
  }

  /** A local list can be given to its end. */
  lemma {:induction false} GivesAll(s: State, k: nat)
    requires k < |s.locals|
    ensures Leads(Steps(), s, Gives(k, |s.locals[k].list|), Given(s, k))
    decreases |s.locals[k].list|
  {
    var l := s.locals[k];
    var n := |l.list|;
    if n == 0 {
      assert s.locals[k := l.(list := [])] == s.locals;
      assert s.send + l.list == s.send && s.ended + l.list == s.ended;
    } else {
      GivenStep(s, k);
      GivesAll(Apply(s, Give(k)), k);
      assert Gives(k, n)[0] == Give(k) && Gives(k, n)[1..] == Gives(k, n - 1);
    }
  }

  lemma GrabThenGive(s: State, acts: seq<Action>, s1: State, k: nat, n: nat, s': State)
    requires Leads(Steps(), s, acts, s1) && k < |s1.locals| && n == |s1.locals[k].list| && s' == Given(s1, k)
    ensures Leads(Steps(), s, acts + Gives(k, n), s')
  {
    GivesAll(s1, k);
    LeadsOn(Steps(), s, acts, s1, Gives(k, n), s');
  }

  /** A new request is at the tail of the send queue. */
  lemma StartQueues(s: State, k: nat, rq: nat)
    requires k < |s.locals| && s.locals[k].list == [] && !InPlay(s, rq)
    ensures Leads(Steps(), s, [Start(k, rq), Give(k)],
      s.(locals := s.locals[k := Local(true, [])], send := s.send + [rq], started := s.started + [rq]))
  {
    var s1 := Apply(s, Start(k, rq));
    assert [rq][1..] == [] && s1.locals[k := Local(true, [])] == s.locals[k := Local(true, [])];
    assert Apply(s1, Give(k)) == s.(locals := s.locals[k := Local(true, [])], send := s.send + [rq],
                                    started := s.started + [rq]);
    LeadsTwo(Steps(), s, Start(k, rq), s1, Give(k), Apply(s1, Give(k)));
  }

  /** A request that timed out waiting for its reply is at the tail of the send queue again. */
  lemma TimeOutQueues(s: State, k: nat, i: nat)
    requires k < |s.locals| && s.locals[k].list == [] && i < |s.recv|
    requires forall j :: 0 <= j < i ==> s.recv[j].rq != s.recv[i].rq
    ensures var rq := s.recv[i].rq;
      Leads(Steps(), s, [TimeOut(k, rq), Give(k)],
        s.(locals := s.locals[k := Local(true, [])], recv := s.recv[..i] + s.recv[i + 1..], send := s.send + [rq]))
  {
    var rq := s.recv[i].rq;
    assert IndexIn(s.recv, rq) == i;
    var s1 := s.(locals := s.locals[k := Local(true, [rq])], recv := s.recv[..i] + s.recv[i + 1..]);
    assert Apply(s, TimeOut(k, rq)) == s1;
    assert [rq][1..] == [] && s1.locals[k := Local(true, [])] == s.locals[k := Local(true, [])];
    assert Apply(s1, Give(k)) == s1.(locals := s.locals[k := Local(true, [])], send := s.send + [rq]);
    LeadsTwo(Steps(), s, TimeOut(k, rq), s1, Give(k), Apply(s1, Give(k)));
  }

  ghost function Requeueing(k: nat, n: nat): seq<Action> { [GrabRecv(k, true)] + Gives(k, n) }

  /** All requests that await a reply are behind those to be sent, newest first. */
  ghost function Requeued(s: State, k: nat): State
    requires k < |s.locals|
  {
    s.(locals := s.locals[k := Local(true, [])], recv := [], send := s.send + NewestFirst(Requests(s.recv)))
  }

  /** The requeueing pass. */
  lemma Requeues(s: State, k: nat)
    requires k < |s.locals| && s.locals[k].list == []
    ensures Leads(Steps(), s, Requeueing(k, |s.recv|), Requeued(s, k))
  {
    ReversedIsNewestFirst(s.recv);
    var s1 := Apply(s, GrabRecv(k, true));
    assert s1.locals[k := Local(true, [])] == s.locals[k := Local(true, [])];
    LeadsOne(Steps(), s, GrabRecv(k, true), s1);
    GrabThenGive(s, [GrabRecv(k, true)], s1, k, |s.recv|, Requeued(s, k));
  }

  ghost function Failing(k: nat, n: nat): seq<Action> { [GrabRecv(k, false), GrabSend(k)] + Gives(k, n) }

  /** Every request of both queues has ended, those to be sent first, newest first. */
  ghost function Failed(s: State, k: nat): State
    requires k < |s.locals|
  {
    s.(locals := s.locals[k := Local(false, [])], recv := [], send := [],
       ended := s.ended + (NewestFirst(s.send) + NewestFirst(Requests(s.recv))))
  }

  lemma GrabsAll(s: State, k: nat) returns (s1: State, s2: State)
    requires k < |s.locals| && s.locals[k].list == []
    ensures Enabled(s, GrabRecv(k, false)) && s1 == Apply(s, GrabRecv(k, false))
    ensures Enabled(s1, GrabSend(k)) && s2 == Apply(s1, GrabSend(k))
    ensures k < |s2.locals| && |s2.locals[k].list| == |s.send| + |s.recv| && Given(s2, k) == Failed(s, k)
  {
    ReversedIsNewestFirst(s.recv);
    ReversedRqsIsNewestFirst(s.send);
    s1 := Apply(s, GrabRecv(k, false));
    s2 := Apply(s1, GrabSend(k));
    assert s2.locals[k := Local(false, [])] == s.locals[k := Local(false, [])];
  }

  lemma TwoThenGive(s: State, a: Action, s1: State, b: Action, s2: State, k: nat, n: nat, s': State)
    requires Enabled(s, a) && s1 == Apply(s, a) && Enabled(s1, b) && s2 == Apply(s1, b)
    requires k < |s2.locals| && n == |s2.locals[k].list| && s' == Given(s2, k)
    ensures Leads(Steps(), s, [a, b] + Gives(k, n), s')
  {
    LeadsTwo(Steps(), s, a, s1, b, s2);
    GrabThenGive(s, [a, b], s2, k, n, s');
  }

  /** The failing pass. */
  lemma Fails(s: State, k: nat)
    requires k < |s.locals| && s.locals[k].list == []
    ensures Leads(Steps(), s, Failing(k, |s.send| + |s.recv|), Failed(s, k))
  {
    var s1, s2 := GrabsAll(s, k);
    TwoThenGive(s, GrabRecv(k, false), s1, GrabSend(k), s2, k, |s.send| + |s.recv|, Failed(s, k));
  }

  // ----- the methods that do this in one go -----

  /** From every state with these queues and a free local list k, the steps acts(k) turn them into the others. */
  ghost predicate StandsFor(acts: nat -> seq<Action>, send: seq<nat>, recv: seq<Sent>, ended: seq<nat>,
      send': seq<nat>, recv': seq<Sent>, ended': seq<nat>) {
    forall s: State, k: nat :: Has(s, k, send, recv, ended) ==> Makes(s, acts(k), send', recv', ended')
  }

  ghost predicate Has(s: State, k: nat, send: seq<nat>, recv: seq<Sent>, ended: seq<nat>) {
    s.send == send && s.recv == recv && s.ended == ended && k < |s.locals| && s.locals[k].list == []
  }

  ghost predicate Makes(s: State, acts: seq<Action>, send: seq<nat>, recv: seq<Sent>, ended: seq<nat>) {
    exists s' :: Leads(Steps(), s, acts, s') && s'.send == send && s'.recv == recv && s'.ended == ended
  }

  ghost function Requeue(n: nat): nat -> seq<Action> { (k: nat) => Requeueing(k, n) }

  ghost function FailBoth(n: nat): nat -> seq<Action> { (k: nat) => Failing(k, n) }

  ghost function Retry(rq: nat): nat -> seq<Action> { (k: nat) => [TimeOut(k, rq), Give(k)] }

  lemma RequeueStands(send: seq<nat>, recv: seq<Sent>, ended: seq<nat>)
    ensures StandsFor(Requeue(|recv|), send, recv, ended, send + NewestFirst(Requests(recv)), [], ended)
  {
    forall s: State, k: nat | Has(s, k, send, recv, ended)
      ensures Makes(s, Requeue(|recv|)(k), send + NewestFirst(Requests(recv)), [], ended) {
      Requeues(s, k);
    }
  }

  lemma FailStands(send: seq<nat>, recv: seq<Sent>, ended: seq<nat>)
    ensures StandsFor(FailBoth(|send| + |recv|), send, recv, ended, [], [],
      ended + (NewestFirst(send) + NewestFirst(Requests(recv))))
  {
    forall s: State, k: nat | Has(s, k, send, recv, ended)
      ensures Makes(s, FailBoth(|send| + |recv|)(k), [], [],
        ended + (NewestFirst(send) + NewestFirst(Requests(recv)))) {
      Fails(s, k);
    }
  }

  lemma RetryStands(send: seq<nat>, recv: seq<Sent>, ended: seq<nat>, i: nat)
    requires i < |recv| && forall j :: 0 <= j < i ==> recv[j].rq != recv[i].rq
    ensures StandsFor(Retry(recv[i].rq), send, recv, ended, send + [recv[i].rq], recv[..i] + recv[i + 1..], ended)
  {
    forall s: State, k: nat | Has(s, k, send, recv, ended)
      ensures Makes(s, Retry(recv[i].rq)(k), send + [recv[i].rq], recv[..i] + recv[i + 1..], ended) {
      TimeOutQueues(s, k, i);
    }
  }

  // ----- the workers -----

  ghost function SendsOne(): seq<Action> { [SendTake, SendPut, SendResult(true)] }

  ghost function Sends(n: nat): seq<Action> {
    if n == 0 then [] else SendsOne() + Sends(n - 1)
  }

  function OnSocket(rqs: seq<nat>, socket: nat): seq<Sent> {
    seq(|rqs|, i requires 0 <= i < |rqs| => Sent(rqs[i], socket))
  }

  lemma SendOne(s: State)
    requires s.sender.Looping? && s.connected && s.send != []
    ensures Leads(Steps(), s, SendsOne(), s.(send := s.send[1..], recv := s.recv + [Sent(s.send[0], s.socket)]))
  {
    var s1 := Apply(s, SendTake);
    var s2 := Apply(s1, SendPut);
    LeadsThree(Steps(), s, SendTake, s1, SendPut, s2, SendResult(true), Apply(s2, SendResult(true)));
  }

  lemma {:induction false} SendLoop(s: State)
    requires s.sender.Looping? && s.connected
    ensures Leads(Steps(), s, Sends(|s.send|), s.(send := [], recv := s.recv + OnSocket(s.send, s.socket)))
    decreases |s.send|
  {
    if s.send == [] {
      assert s.recv + OnSocket(s.send, s.socket) == s.recv;
    } else {
      var s1 := s.(send := s.send[1..], recv := s.recv + [Sent(s.send[0], s.socket)]);
      SendOne(s);
      SendLoop(s1);
      var s' := s1.(send := [], recv := s1.recv + OnSocket(s1.send, s.socket));
      LeadsOn(Steps(), s, SendsOne(), s1, Sends(|s1.send|), s');
      assert s1.recv + OnSocket(s1.send, s.socket) == s.recv + OnSocket(s.send, s.socket);
    }
  }

  /** If sending fails, the request still awaits its reply, or a switch, and the worker is done. */
  lemma SendFails(s: State)
    requires s.sender.Looping? && s.connected && s.send != []
    ensures Leads(Steps(), s, [SendTake, SendPut, SendResult(false)],
      s.(sender := Off, send := s.send[1..], recv := s.recv + [Sent(s.send[0], s.socket)]))
  {
    var s1 := Apply(s, SendTake);
    var s2 := Apply(s1, SendPut);
    LeadsThree(Steps(), s, SendTake, s1, SendPut, s2, SendResult(false), Apply(s2, SendResult(false)));
  }

  /** The send worker: with a connection it sends all that is queued, in order, on the current socket. */
  lemma SendsAll(s: State)
    requires s.sender.Off? && !s.switch_.Locked? && s.connected
    ensures Leads(Steps(), s, [SendBegin] + Sends(|s.send|) + [SendStop],
      s.(send := [], recv := s.recv + OnSocket(s.send, s.socket)))
  {
    var s1 := Apply(s, SendBegin);
    LeadsOne(Steps(), s, SendBegin, s1);
    SendLoop(s1);
    var s2 := s1.(send := [], recv := s.recv + OnSocket(s.send, s.socket));
    LeadsOn(Steps(), s, [SendBegin], s1, Sends(|s.send|), s2);
    LeadsOne(Steps(), s2, SendStop, Apply(s2, SendStop));
    LeadsOn(Steps(), s, [SendBegin] + Sends(|s.send|), s2, [SendStop], Apply(s2, SendStop));
  }

  /** A complete reply ends its request; an incomplete one puts it first in the send queue and stops the worker. */
  lemma ReplyEnds(s: State, i: nat)
    requires s.receiver.Receiving? && s.connected && i < |s.recv|
    requires forall j :: 0 <= j < i ==> s.recv[j].rq != s.recv[i].rq
    ensures var rq, rest := s.recv[i].rq, s.recv[..i] + s.recv[i + 1..];
      && Leads(Steps(), s, [RecvTake(rq), RecvEnd], s.(recv := rest, ended := s.ended + [rq]))
      && Leads(Steps(), s, [RecvTake(rq), RecvFail], s.(recv := rest, send := [rq] + s.send, receiver := Stopped))
  {
    var rq := s.recv[i].rq;
    assert IndexIn(s.recv, rq) == i;
    var s1 := Apply(s, RecvTake(rq));
    LeadsTwo(Steps(), s, RecvTake(rq), s1, RecvEnd, Apply(s1, RecvEnd));
    LeadsTwo(Steps(), s, RecvTake(rq), s1, RecvFail, Apply(s1, RecvFail));
  }

  /** The receive worker starts and stops. */
  lemma RecvRuns(s: State)
    requires s.receiver.Stopped?
    ensures Leads(Steps(), s, [RecvBegin, RecvStop], s) && Leads(Steps(), s, [RecvBegin], s.(receiver := Receiving))
  {
    var s1 := Apply(s, RecvBegin);
    LeadsOne(Steps(), s, RecvBegin, s1);
    LeadsTwo(Steps(), s, RecvBegin, s1, RecvStop, Apply(s1, RecvStop));
  }

  ghost function Switching(connect: bool, k: nat): seq<Action> { [SwitchBegin(connect), Swap, SwitchGrab(k, true)] }

  lemma SwitchGrabs(s: State, k: nat, connect: bool)
    requires s.switch_.NoSwitch? && s.sender.Off? && s.receiver.Stopped?
    requires k < |s.locals| && s.locals[k].list == []
    ensures Leads(Steps(), s, Switching(connect, k),
      s.(locals := s.locals[k := Local(true, NewestFirst(Requests(s.recv)))], recv := [],
         socket := s.socket + 1, connected := connect))
  {
    ReversedIsNewestFirst(s.recv);
    var s1 := Apply(s, SwitchBegin(connect));
    var s2 := Apply(s1, Swap);
    LeadsThree(Steps(), s, SwitchBegin(connect), s1, Swap, s2, SwitchGrab(k, true), Apply(s2, SwitchGrab(k, true)));
  }

  /** A switch of the connection, or a disconnect: a new socket, or none, and everything awaited is sent again. */
  lemma SwitchRequeues(s: State, k: nat, connect: bool)
    requires s.switch_.NoSwitch? && s.sender.Off? && s.receiver.Stopped?
    requires k < |s.locals| && s.locals[k].list == []
    ensures Leads(Steps(), s, Switching(connect, k) + Gives(k, |s.recv|),
      Requeued(s, k).(socket := s.socket + 1, connected := connect))
  {
    var s1 := s.(locals := s.locals[k := Local(true, NewestFirst(Requests(s.recv)))], recv := [],
                 socket := s.socket + 1, connected := connect);
    SwitchGrabs(s, k, connect);
    assert s1.locals[k := Local(true, [])] == s.locals[k := Local(true, [])];
    GrabThenGive(s, Switching(connect, k), s1, k, |s.recv|,
      Requeued(s, k).(socket := s.socket + 1, connected := connect));
  }

  /** All this starts from empty queues and idle workers, whatever the socket. */
  lemma StartsIdle(n: nat, socket: nat, connected: bool)
    ensures Init()(State([], [], Off, Stopped, NoSwitch, seq(n, _ => Local(true, [])), [], [], socket, connected))
  {
  }
}
