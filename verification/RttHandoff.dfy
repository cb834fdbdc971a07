/**
 The hand-off of a better connection between RTT checks (`altservers.c`) and the uplink thread
 (`uplink.c`) over the life of an uplink. Any number of checks may be attempted at any time; each
 section under the RTT lock and each atomic access to the test result is one step.
 */
module RttHandoff {
  import opened Options
  import opened Sums
  import opened Runs

  datatype TestResult = RttIdle | InProgress | DontChange | DoChange | NotReachable

  /** A check: not running, or probing servers with the best connection so far and maybe one under test. */
  datatype Check = Resting | Probing(best: Option<nat>, probe: Option<nat>)

  /** The uplink thread: in its loop, having seen DoChange, closing its old connection, or gone. */
  datatype Thread = Looping | SawChange | Closing(previous: Option<nat>) | Gone

  /** Sockets are numbered as they are opened. */
  datatype State = State(result: TestResult, better: Option<nat>, current: Option<nat>, checks: seq<Check>,
                         thread: Thread, sockets: nat, closed: seq<nat>, freed: bool, fault: bool)

  datatype Action =
    | BeginCheck(k: nat)
    | NoServers(k: nat, gone: bool)  // nobody to ask, or the image went away
    | Connect(k: nat)
    | Discard(k: nat)                // failed, too slow, or only measuring the current server
    | Keep(k: nat)                   // the best so far
    | HandOver(k: nat)
    | Unreachable(k: nat)
    | Decline(k: nat)
    | See
    | Take
    | CloseOld
    | ConnectionFailed
    | Acknowledge                    // NotReachable back to idle
    | Exit
    | Free

  ghost predicate Enabled(s: State, a: Action) {
    !s.freed &&
    match a
    case BeginCheck(k) => k < |s.checks| && s.checks[k].Resting?
    case NoServers(k, _) => k < |s.checks| && s.checks[k] == Probing(None, None)
    case Connect(k) => k < |s.checks| && s.checks[k].Probing? && s.checks[k].probe.None?
    case Discard(k) => k < |s.checks| && s.checks[k].Probing? && s.checks[k].probe.Some?
    case Keep(k) => k < |s.checks| && s.checks[k].Probing? && s.checks[k].probe.Some?
    case HandOver(k) => k < |s.checks| && s.checks[k].Probing? && s.checks[k].probe.None? && s.checks[k].best.Some?
    case Unreachable(k) => k < |s.checks| && s.checks[k] == Probing(None, None)
    case Decline(k) => k < |s.checks| && s.checks[k].Probing? && s.checks[k].probe.None?
    case See => s.thread.Looping? && s.result.DoChange?
    case Take => s.thread.SawChange?
    case CloseOld => s.thread.Closing?
    case ConnectionFailed => s.thread.Looping? && s.current.Some?
    case Acknowledge => s.thread.Looping? && s.result.NotReachable?
    case Exit => s.thread.Looping?
    case Free => s.thread.Gone? && forall k :: 0 <= k < |s.checks| ==> s.checks[k].Resting?
  }

  function Listed(o: Option<nat>): seq<nat> { if o.Some? then [o.value] else [] }

  ghost function Apply(s: State, a: Action): State
    requires Enabled(s, a)
  {
    match a
    case BeginCheck(k) =>
      if s.better.Some? || s.result.InProgress? then s
      else if s.result.DoChange? then s.(fault := true)
      else s.(result := InProgress, checks := s.checks[k := Probing(None, None)])
    case NoServers(k, gone) => s.(result := if gone then NotReachable else DontChange, checks := s.checks[k := Resting])
    case Connect(k) => s.(checks := s.checks[k := s.checks[k].(probe := Some(s.sockets))], sockets := s.sockets + 1)
    case Discard(k) =>
      s.(closed := s.closed + Listed(s.checks[k].probe), checks := s.checks[k := s.checks[k].(probe := None)])
    case Keep(k) =>
      s.(closed := s.closed + Listed(s.checks[k].best), checks := s.checks[k := Probing(s.checks[k].probe, None)])
    case HandOver(k) => s.(better := s.checks[k].best, result := DoChange, checks := s.checks[k := Resting])
    case Unreachable(k) => s.(result := NotReachable, checks := s.checks[k := Resting])
    case Decline(k) =>
      s.(closed := s.closed + Listed(s.checks[k].best), result := DontChange, checks := s.checks[k := Resting])
    case See => s.(thread := SawChange)
    case Take =>
      if !s.result.DoChange? then s.(fault := true)
      else s.(result := RttIdle, thread := Closing(s.current), current := s.better, better := None)
    case CloseOld => s.(closed := s.closed + Listed(s.thread.previous), thread := Looping)
    case ConnectionFailed => s.(closed := s.closed + Listed(s.current), current := None)
    case Acknowledge => s.(result := RttIdle)
    case Exit => s.(thread := Gone)
    case Free => s.(closed := s.closed + Listed(s.current) + Listed(s.better), current := None, better := None,
      freed := true)
  }

  // ----- one check at a time, and better is set exactly when a change is due -----

  ghost predicate OneCheck(s: State) {
    && (forall k :: 0 <= k < |s.checks| && s.checks[k].Probing? ==> s.result.InProgress?)
    && (forall j, k :: 0 <= j < k < |s.checks| && s.checks[j].Probing? ==> !s.checks[k].Probing?)
    && (s.result.InProgress? ==> exists k :: 0 <= k < |s.checks| && s.checks[k].Probing?)
  }

  ghost predicate HandOffOk(s: State) {
    && (!s.freed ==> (s.better.Some? <==> s.result.DoChange?)) && !s.fault
    && (s.thread.SawChange? ==> s.result.DoChange?)
    && (s.freed ==> s.thread.Gone? && s.current.None? && s.better.None? && forall k :: 0 <= k < |s.checks| ==>
      s.checks[k].Resting?)
  }

  lemma KeepsHandOff(s: State, a: Action)
    requires Enabled(s, a) && OneCheck(s) && HandOffOk(s)
    ensures OneCheck(Apply(s, a)) && HandOffOk(Apply(s, a))
  {
    var s' := Apply(s, a);
    if s'.result.InProgress? {
      if a.BeginCheck? && !s.better.Some? && !s.result.InProgress? {
        assert s'.checks[a.k].Probing?;
      } else {
        var k :| 0 <= k < |s.checks| && s.checks[k].Probing?;
        assert s'.checks[k].Probing?;
      }
    }
  }

  // ----- where every socket is -----

  ghost function Is(x: nat): nat -> int { (y: nat) => if x == y then 1 else 0 }

  ghost function At(o: Option<nat>, x: nat): int { if o == Some(x) then 1 else 0 }

  ghost function InCheck(x: nat): Check -> int {
    (c: Check) => if c.Probing? then At(c.best, x) + At(c.probe, x) else 0
  }

  /** How often socket x is held open by somebody. */
  ghost function Held(s: State, x: nat): int {
    At(s.current, x) + At(s.better, x) + SumBy(s.checks, InCheck(x))
      + (if s.thread.Closing? then At(s.thread.previous, x) else 0)
  }

  /** Every opened socket is held once or was closed once. */
  ghost predicate Accounted(s: State, x: nat) {
    Held(s, x) + SumBy(s.closed, Is(x)) == if x < s.sockets then 1 else 0
  }

  lemma ListedCount(s: seq<nat>, o: Option<nat>, x: nat)
    ensures SumBy(s + Listed(o), Is(x)) == SumBy(s, Is(x)) + At(o, x)
  {
    SumConcat(s, Listed(o), Is(x));
    if o.Some? {
      assert [o.value][1..] == [];
      assert SumBy([o.value], Is(x)) == Is(x)(o.value) + SumBy([o.value][1..], Is(x));
    }
  }

  lemma AccountedCheck(s: State, a: Action, x: nat)
    requires Enabled(s, a) && Accounted(s, x) && HandOffOk(s) && OneCheck(s)
    requires a.Connect? || a.Discard? || a.Keep? || a.HandOver? || a.Decline?
    ensures Accounted(Apply(s, a), x)
  {
    var s', c := Apply(s, a), s.checks[a.k];
    SumUpdate(s.checks, a.k, s'.checks[a.k], InCheck(x));
    ListedCount(s.closed, c.best, x);
    ListedCount(s.closed, c.probe, x);
    if a.HandOver? {
      assert s.result.InProgress? && s.better.None?;
    }
  }

  lemma KeepsAccounted(s: State, a: Action, x: nat)
    requires Enabled(s, a) && Accounted(s, x) && HandOffOk(s) && OneCheck(s)
    ensures Accounted(Apply(s, a), x)
  {
    match a {
      case BeginCheck(k) => SumUpdate(s.checks, k, Probing(None, None), InCheck(x));
      case NoServers(k, _) => SumUpdate(s.checks, k, Resting, InCheck(x));
      case Unreachable(k) => SumUpdate(s.checks, k, Resting, InCheck(x));
      case Connect(_) => AccountedCheck(s, a, x);
      case Discard(_) => AccountedCheck(s, a, x);
      case Keep(_) => AccountedCheck(s, a, x);
      case HandOver(_) => AccountedCheck(s, a, x);
      case Decline(_) => AccountedCheck(s, a, x);
      case CloseOld => ListedCount(s.closed, s.thread.previous, x);
      case ConnectionFailed => ListedCount(s.closed, s.current, x);
      case Free =>
        ListedCount(s.closed, s.current, x);
        ListedCount(s.closed + Listed(s.current), s.better, x);
      case _ =>
    }
  }

  // ----- whole lives -----

  /** `uplink_init`, with or without a connection to start from. */
  ghost predicate Created(s: State) {
    && (forall k :: 0 <= k < |s.checks| ==> s.checks[k].Resting?)
    && s.current.None? && s.thread.Looping? && s.closed == [] && !s.freed && !s.fault
    && (if s.sockets == 0 then s.better.None? && s.result.RttIdle?
      else s.sockets == 1 && s.better == Some(0) && s.result.DoChange?)
  }

  ghost function Init(): State -> bool { (s: State) => Created(s) }

  ghost predicate Step(s: State, s': State) { exists a :: Enabled(s, a) && s' == Apply(s, a) }

  ghost function Next(): (State, State) -> bool { (s: State, s': State) => Step(s, s') }

  ghost predicate Inv(s: State, x: nat) { OneCheck(s) && HandOffOk(s) && Accounted(s, x) }

  lemma ReachedInv(s: State, x: nat)
    requires Reachable(Init(), Next(), s)
    ensures Inv(s, x)
  {
    var inv := (y: State) => Inv(y, x);
    forall y | Init()(y) ensures inv(y) {
      SumZero(y.checks, InCheck(x));
    }
    forall y, z | inv(y) && Next()(y, z) ensures inv(z) {
      var a :| Enabled(y, a) && z == Apply(y, a);
      KeepsHandOff(y, a);
      KeepsAccounted(y, a, x);
    }
    Always(Init(), Next(), inv, s);
  }

  /** At most one check is probing; a better connection is stored exactly when a change is due; no assertion fails. */
  lemma OneCheckAtATime(s: State)
    requires Reachable(Init(), Next(), s)
    ensures !s.fault
    ensures forall j, k :: 0 <= j < k < |s.checks| && s.checks[j].Probing? ==> !s.checks[k].Probing?
    ensures s.result.InProgress? <==> exists k :: 0 <= k < |s.checks| && s.checks[k].Probing?
    ensures !s.freed ==> (s.better.Some? <==> s.result.DoChange?)
  {
    ReachedInv(s, 0);
  }

  /**
   Every socket ever opened is held in exactly one place or closed exactly once, and all are closed
   once the uplink is freed.
   */
  lemma ClosedExactlyOnce(s: State, x: nat)
    requires Reachable(Init(), Next(), s)
    ensures Held(s, x) + SumBy(s.closed, Is(x)) == if x < s.sockets then 1 else 0
    ensures s.freed ==> SumBy(s.closed, Is(x)) == if x < s.sockets then 1 else 0
  {
    ReachedInv(s, x);
    if s.freed {
      SumZero(s.checks, InCheck(x));
    }
  }
}
