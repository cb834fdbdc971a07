/**
 Who owns a block request in the kernel client (`kernel/blk.c`, `kernel/net.c`): the send queue, the
 receive queue, the hands of a worker, or nobody once it is ended. The workers, timeouts, connection
 switches and disconnects interleave at every spinlock section and under the two mutexes.
 */
module KernelRequests {
  import opened Sums
  import opened Runs

  /** An entry of the receive queue, with the number of the socket that was current when it went in. */
  datatype Sent = Sent(rq: nat, socket: nat)

  /** The send worker; it holds the send mutex unless off. */
  datatype Sender = Off | Looping | Carrying(rq: nat) | Sending

  /** The receive worker; it holds the receive mutex unless stopped. */
  datatype Receiver = Stopped | Receiving | Holding(rq: nat)

  /**
   A connection switch or disconnect: waiting for the receive mutex with the send mutex held, or done
   but not yet requeued.
   */
  datatype Switch = NoSwitch | Locked(connect: bool) | Swapped

  /** The local list of somebody adding, timing out, requeueing or failing requests. */
  datatype Local = Local(resend: bool, list: seq<nat>)

  datatype State = State(send: seq<nat>, recv: seq<Sent>, sender: Sender, receiver: Receiver, switch_: Switch,
                         locals: seq<Local>, started: seq<nat>, ended: seq<nat>, socket: nat, connected: bool)

  datatype Action =
    | Start(k: nat, rq: nat)       // dnbd3_queue_rq, before dnbd3_add_queue
    | TimeOut(k: nat, rq: nat)     // dnbd3_rq_timeout took it off the receive queue
    | GrabRecv(k: nat, resend: bool)
    | GrabSend(k: nat)             // only when failing
    | Give(k: nat)                 // one request from a local list: queued to send, or ended
    | SendBegin
    | SendTake
    | SendPut
    | SendResult(ok: bool)
    | SendStop
    | RecvBegin
    | RecvTake(rq: nat)            // reply with the handle of a queued request
    | RecvEnd
    | RecvFail                     // payload incomplete: back to the head of the send queue
    | RecvStop
    | SwitchBegin(connect: bool)
    | Swap
    | SwitchGrab(k: nat, resend: bool)

  function IndexIn(recv: seq<Sent>, rq: nat): (k: nat)
    ensures k <= |recv| && (k < |recv| ==> recv[k].rq == rq) && forall i :: 0 <= i < k ==> recv[i].rq != rq
  {
    if recv == [] || recv[0].rq == rq then 0 else 1 + IndexIn(recv[1..], rq)
  }

  function Without(recv: seq<Sent>, k: nat): seq<Sent>
    requires k < |recv|
  {
    recv[..k] + recv[k + 1..]
  }

  /** Requests moved one by one to the head of a local list. */
  function Reversed(recv: seq<Sent>): seq<nat> {
    if recv == [] then [] else [recv[|recv| - 1].rq] + Reversed(recv[..|recv| - 1])
  }

  function ReversedRqs(send: seq<nat>): seq<nat> {
    if send == [] then [] else [send[|send| - 1]] + ReversedRqs(send[..|send| - 1])
  }

  ghost predicate InPlay(s: State, rq: nat) { SumBy(s.started, Is(rq)) != SumBy(s.ended, Is(rq)) }

  ghost predicate Enabled(s: State, a: Action) {
    match a
    case Start(k, rq) => k < |s.locals| && s.locals[k].list == [] && !InPlay(s, rq)
    case TimeOut(k, rq) => k < |s.locals| && s.locals[k].list == [] && IndexIn(s.recv, rq) < |s.recv|
    case GrabRecv(k, _) => k < |s.locals| && s.locals[k].list == []
    case GrabSend(k) => k < |s.locals| && !s.locals[k].resend
    case Give(k) => k < |s.locals| && s.locals[k].list != []
    case SendBegin => s.sender.Off? && !s.switch_.Locked?
    case SendTake => s.sender.Looping? && s.connected && s.send != []
    case SendPut => s.sender.Carrying?
    case SendResult(_) => s.sender.Sending?
    case SendStop => s.sender.Looping?
    case RecvBegin => s.receiver.Stopped?
    case RecvTake(rq) => s.receiver.Receiving? && s.connected && IndexIn(s.recv, rq) < |s.recv|
    case RecvEnd => s.receiver.Holding?
    case RecvFail => s.receiver.Holding?
    case RecvStop => s.receiver.Receiving?
    case SwitchBegin(_) => s.switch_.NoSwitch? && s.sender.Off?
    case Swap => s.switch_.Locked? && s.receiver.Stopped?
    case SwitchGrab(k, _) => s.switch_.Swapped? && k < |s.locals| && s.locals[k].list == []
  }

  ghost function Apply(s: State, a: Action): State
    requires Enabled(s, a)
  {
    match a
    case Start(k, rq) => s.(locals := s.locals[k := Local(true, [rq])], started := s.started + [rq])
    case TimeOut(k, rq) => s.(locals := s.locals[k := Local(true, [rq])], recv := Without(s.recv, IndexIn(s.recv, rq)))
    case GrabRecv(k, resend) => s.(locals := s.locals[k := Local(resend, Reversed(s.recv))], recv := [])
    case GrabSend(k) => s.(locals := s.locals[k := Local(false, ReversedRqs(s.send) + s.locals[k].list)], send := [])
    case Give(k) =>
      var l := s.locals[k];
      var s' := s.(locals := s.locals[k := l.(list := l.list[1..])]);
      if l.resend then s'.(send := s.send + [l.list[0]]) else s'.(ended := s.ended + [l.list[0]])
    case SendBegin => s.(sender := Looping)
    case SendTake => s.(sender := Carrying(s.send[0]), send := s.send[1..])
    case SendPut => s.(sender := Sending, recv := s.recv + [Sent(s.sender.rq, s.socket)])
    case SendResult(ok) => s.(sender := if ok then Looping else Off)
    case SendStop => s.(sender := Off)
    case RecvBegin => s.(receiver := Receiving)
    case RecvTake(rq) => s.(receiver := Holding(rq), recv := Without(s.recv, IndexIn(s.recv, rq)))
    case RecvEnd => s.(receiver := Receiving, ended := s.ended + [s.receiver.rq])
    case RecvFail => s.(receiver := Stopped, send := [s.receiver.rq] + s.send)
    case RecvStop => s.(receiver := Stopped)
    case SwitchBegin(connect) => s.(switch_ := Locked(connect))
    case Swap => s.(switch_ := Swapped, socket := s.socket + 1, connected := s.switch_.connect)
    case SwitchGrab(k, resend) =>
      s.(switch_ := NoSwitch, locals := s.locals[k := Local(resend, Reversed(s.recv))], recv := [])
  }

  // ----- counting -----

  ghost function Is(rq: nat): nat -> int { (x: nat) => if x == rq then 1 else 0 }

  ghost function IsSent(rq: nat): Sent -> int { (e: Sent) => Is(rq)(e.rq) }

  ghost function InLocal(rq: nat): Local -> int { (l: Local) => SumBy(l.list, Is(rq)) }

  ghost function InHands(s: State, rq: nat): int {
    (if s.sender.Carrying? then Is(rq)(s.sender.rq) else 0) + (if s.receiver.Holding? then Is(rq)(s.receiver.rq) else 0)
      + SumBy(s.locals, InLocal(rq))
  }

  /** In how many places the request is. */
  ghost function Places(s: State, rq: nat): int {
    SumBy(s.send, Is(rq)) + SumBy(s.recv, IsSent(rq)) + InHands(s, rq)
  }

  /** Every started request not yet ended is in exactly one place, any other in none. */
  ghost predicate Owned(s: State, rq: nat) {
    && Places(s, rq) == SumBy(s.started, Is(rq)) - SumBy(s.ended, Is(rq))
    && 0 <= Places(s, rq) <= 1
  }

  /** Unless a switch is between swapping the socket and grabbing, every queued receive is for the current socket. */
  ghost predicate ForCurrentSocket(s: State) {
    !s.switch_.Swapped? ==> forall i :: 0 <= i < |s.recv| ==> s.recv[i].socket == s.socket
  }

  ghost predicate MutexOk(s: State) { s.switch_.Locked? ==> s.sender.Off? }

  lemma {:induction false} ReversedCount(recv: seq<Sent>, rq: nat)
    ensures SumBy(Reversed(recv), Is(rq)) == SumBy(recv, IsSent(rq))
  {
    if recv != [] {
      var front, e := recv[..|recv| - 1], recv[|recv| - 1];
      ReversedCount(front, rq);
      SumLast(recv, IsSent(rq));
      SumConcat([e.rq], Reversed(front), Is(rq));
    }
  }

  lemma {:induction false} ReversedRqsCount(send: seq<nat>, rq: nat)
    ensures SumBy(ReversedRqs(send), Is(rq)) == SumBy(send, Is(rq))
  {
    if send != [] {
      var front, x := send[..|send| - 1], send[|send| - 1];
      ReversedRqsCount(front, rq);
      SumLast(send, Is(rq));
      SumConcat([x], ReversedRqs(front), Is(rq));
    }
  }

  lemma PlacesNonNegative(s: State, rq: nat)
    ensures Places(s, rq) >= 0
  {
    forall i | 0 <= i < |s.locals| ensures InLocal(rq)(s.locals[i]) >= 0 {
      SumNonNegative(s.locals[i].list, Is(rq));
    }
    SumNonNegative(s.locals, InLocal(rq));
    SumNonNegative(s.send, Is(rq));
    SumNonNegative(s.recv, IsSent(rq));
  }

  /** A step moves requests between places; only starting one adds a place and only ending one removes it. */
  ghost predicate Balanced(s: State, s': State, rq: nat) {
    Places(s', rq) - Places(s, rq) == SumBy(s'.started, Is(rq)) - SumBy(s.started, Is(rq)) - SumBy(s'.ended, Is(rq))
      + SumBy(s.ended, Is(rq))
  }

  lemma BalancedQueueing(s: State, a: Action, rq: nat)
    requires Enabled(s, a) && (a.Start? || a.TimeOut?)
    ensures Balanced(s, Apply(s, a), rq)
  {
    SumUpdate(s.locals, a.k, Local(true, [a.rq]), InLocal(rq));
    assert [a.rq][1..] == [];
    assert SumBy([a.rq], Is(rq)) == Is(rq)(a.rq);
    if a.Start? {
      SumConcat(s.started, [a.rq], Is(rq));
    } else {
      SumRemove(s.recv, IndexIn(s.recv, a.rq), IsSent(rq));
    }
  }

  lemma BalancedGrab(s: State, a: Action, rq: nat)
    requires Enabled(s, a) && (a.GrabRecv? || a.SwitchGrab? || a.GrabSend?)
    ensures Balanced(s, Apply(s, a), rq)
  {
    var s' := Apply(s, a);
    SumUpdate(s.locals, a.k, s'.locals[a.k], InLocal(rq));
    if a.GrabSend? {
      ReversedRqsCount(s.send, rq);
      SumConcat(ReversedRqs(s.send), s.locals[a.k].list, Is(rq));
    } else {
      ReversedCount(s.recv, rq);
    }
  }

  lemma BalancedGive(s: State, a: Action, rq: nat)
    requires Enabled(s, a) && a.Give?
    ensures Balanced(s, Apply(s, a), rq)
  {
    var l := s.locals[a.k];
    SumUpdate(s.locals, a.k, l.(list := l.list[1..]), InLocal(rq));
    SumConcat(s.send, [l.list[0]], Is(rq));
    SumConcat(s.ended, [l.list[0]], Is(rq));
  }

  lemma BalancedWorker(s: State, a: Action, rq: nat)
    requires Enabled(s, a) && (a.SendTake? || a.SendPut? || a.RecvTake? || a.RecvEnd? || a.RecvFail?)
    ensures Balanced(s, Apply(s, a), rq)
  {
    match a {
      case SendTake =>
      case SendPut => SumConcat(s.recv, [Sent(s.sender.rq, s.socket)], IsSent(rq));
      case RecvTake(x) => SumRemove(s.recv, IndexIn(s.recv, x), IsSent(rq));
      case RecvEnd => SumConcat(s.ended, [s.receiver.rq], Is(rq));
      case RecvFail => SumConcat([s.receiver.rq], s.send, Is(rq));
    }
  }

  lemma KeepsBalance(s: State, a: Action, rq: nat)
    requires Enabled(s, a)
    ensures Balanced(s, Apply(s, a), rq)
  {
    match a {
      case Start(_, _) => BalancedQueueing(s, a, rq);
      case TimeOut(_, _) => BalancedQueueing(s, a, rq);
      case GrabRecv(_, _) => BalancedGrab(s, a, rq);
      case SwitchGrab(_, _) => BalancedGrab(s, a, rq);
      case GrabSend(_) => BalancedGrab(s, a, rq);
      case Give(_) => BalancedGive(s, a, rq);
      case SendTake => BalancedWorker(s, a, rq);
      case SendPut => BalancedWorker(s, a, rq);
      case RecvTake(_) => BalancedWorker(s, a, rq);
      case RecvEnd => BalancedWorker(s, a, rq);
      case RecvFail => BalancedWorker(s, a, rq);
      case _ =>
    }
  }

  lemma KeepsOwned(s: State, a: Action, rq: nat)
    requires Enabled(s, a) && Owned(s, rq)
    ensures Owned(Apply(s, a), rq)
  {
    var s' := Apply(s, a);
    KeepsBalance(s, a, rq);
    PlacesNonNegative(s', rq);
    if a.Start? { SumConcat(s.started, [a.rq], Is(rq)); }
    if a.Give? && !s.locals[a.k].resend { SumConcat(s.ended, [s.locals[a.k].list[0]], Is(rq)); }
    if a.RecvEnd? { SumConcat(s.ended, [s.receiver.rq], Is(rq)); }
  }

  lemma KeepsSocket(s: State, a: Action)
    requires Enabled(s, a) && ForCurrentSocket(s) && MutexOk(s)
    ensures ForCurrentSocket(Apply(s, a)) && MutexOk(Apply(s, a))
  {
  }

  // ----- whole runs -----

  ghost predicate Fresh(s: State) {
    && s.send == [] && s.recv == [] && s.sender == Off && s.receiver == Stopped && s.switch_ == NoSwitch
    && s.started == [] && s.ended == [] && forall k :: 0 <= k < |s.locals| ==> s.locals[k].list == []
  }

  ghost function Init(): State -> bool { (s: State) => Fresh(s) }

  ghost predicate Step(s: State, s': State) { exists a :: Enabled(s, a) && s' == Apply(s, a) }

  ghost function Next(): (State, State) -> bool { (s: State, s': State) => Step(s, s') }

  /**
   At all times a request is in exactly one place if started and not ended, else in none; so it ends at
   most once per start.
   */
  lemma ExactlyOnePlace(s: State, rq: nat)
    requires Reachable(Init(), Next(), s)
    ensures Places(s, rq) == SumBy(s.started, Is(rq)) - SumBy(s.ended, Is(rq))
    ensures Places(s, rq) == if InPlay(s, rq) then 1 else 0
  {
    var inv := (x: State) => Owned(x, rq);
    forall x | Init()(x) ensures inv(x) {
      SumZero(x.locals, InLocal(rq));
    }
    forall x, y | inv(x) && Next()(x, y) ensures inv(y) {
      var a :| Enabled(x, a) && y == Apply(x, a);
      KeepsOwned(x, a, rq);
    }
    Always(Init(), Next(), inv, s);
  }

  /** Once a switch has grabbed the receive queue, every request in it was put there for the current socket. */
  lemma ReceivesForCurrentSocket(s: State)
    requires Reachable(Init(), Next(), s)
    ensures !s.switch_.Swapped? ==> forall i :: 0 <= i < |s.recv| ==> s.recv[i].socket == s.socket
  {
    var inv := (x: State) => ForCurrentSocket(x) && MutexOk(x);
    forall x, y | inv(x) && Next()(x, y) ensures inv(y) {
      var a :| Enabled(x, a) && y == Apply(x, a);
      KeepsSocket(x, a);
    }
    Always(Init(), Next(), inv, s);
  }
}
