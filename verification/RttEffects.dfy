/** What an RTT check is for: a better connection, once found, becomes the current one and the old one is closed. */
module RttEffects {
  import opened Options
  import opened RttHandoff
  import opened Runs

  ghost function Steps(): (State, Action, State) -> bool {
    (s: State, a: Action, s': State) => Enabled(s, a) && s' == Apply(s, a)
  }

  /** A check can begin: none is running and no change is due. */
  ghost predicate Quiet(s: State, k: nat) {
    !s.freed && k < |s.checks| && s.checks[k].Resting? && s.better.None? && !s.result.InProgress? && !s.result.DoChange?
  }

  ghost predicate Probes(s: State, k: nat, best: Option<nat>) {
    !s.freed && k < |s.checks| && s.checks[k] == Probing(best, None)
  }

  /** A check begins exactly if none is running and no result is waiting; else the attempt changes nothing. */
  lemma BeginsIfQuiet(s: State, k: nat)
    requires HandOffOk(s) && !s.freed && k < |s.checks| && s.checks[k].Resting?
    ensures Enabled(s, BeginCheck(k))
    ensures Apply(s, BeginCheck(k)) == if s.better.None? && !s.result.InProgress?
      then s.(result := InProgress, checks := s.checks[k := Probing(None, None)]) else s
  {
  }

  /** A server is connected to and turns out better than all before: the former best is closed; or not: it is closed. */
  lemma ProbeKeepsOrCloses(s: State, k: nat, best: Option<nat>)
    requires Probes(s, k, best)
    ensures Leads(Steps(), s, [Connect(k), Keep(k)],
      s.(checks := s.checks[k := Probing(Some(s.sockets), None)], sockets := s.sockets + 1,
         closed := s.closed + if best.Some? then [best.value] else []))
    ensures Leads(Steps(), s, [Connect(k), Discard(k)], s.(sockets := s.sockets + 1, closed := s.closed + [s.sockets]))
  {
    var s1 := Apply(s, Connect(k));
    assert s1.checks[k := Probing(Some(s.sockets), None)] == s.checks[k := Probing(Some(s.sockets), None)];
    assert s1.checks[k := Probing(best, None)] == s.checks;
    LeadsTwo(Steps(), s, Connect(k), s1, Keep(k), Apply(s1, Keep(k)));
    LeadsTwo(Steps(), s, Connect(k), s1, Discard(k), Apply(s1, Discard(k)));
  }

  /** The best connection is handed over and taken by the uplink thread, which closes the one it had. */
  lemma SwitchesToBest(s: State, k: nat, b: nat)
    requires Probes(s, k, Some(b)) && s.thread.Looping?
    ensures Leads(Steps(), s, [HandOver(k), See, Take] + [CloseOld],
      s.(checks := s.checks[k := Resting], current := Some(b), better := None, result := RttIdle,
         closed := s.closed + if s.current.Some? then [s.current.value] else []))
  {
    var s1 := Apply(s, HandOver(k));
    var s2 := Apply(s1, See);
    var s3 := Apply(s2, Take);
    LeadsThree(Steps(), s, HandOver(k), s1, See, s2, Take, s3);
    LeadsOne(Steps(), s3, CloseOld, Apply(s3, CloseOld));
    LeadsOn(Steps(), s, [HandOver(k), See, Take], s3, [CloseOld], Apply(s3, CloseOld));
  }

  /** A check that finds nothing better closes what it has; one that reaches nobody says so, until that is seen. */
  lemma NothingBetter(s: State, k: nat, best: Option<nat>)
    requires Probes(s, k, best)
    ensures Leads(Steps(), s, [Decline(k)], s.(checks := s.checks[k := Resting], result := DontChange,
      closed := s.closed + if best.Some? then [best.value] else []))
    ensures best.None? ==>
      && Leads(Steps(), s, [Unreachable(k)], s.(checks := s.checks[k := Resting], result := NotReachable))
      && Leads(Steps(), s, [NoServers(k, true)], s.(checks := s.checks[k := Resting], result := NotReachable))
      && Leads(Steps(), s, [NoServers(k, false)], s.(checks := s.checks[k := Resting], result := DontChange))
  {
    LeadsOne(Steps(), s, Decline(k), Apply(s, Decline(k)));
    if best.None? {
      LeadsOne(Steps(), s, Unreachable(k), Apply(s, Unreachable(k)));
      LeadsOne(Steps(), s, NoServers(k, true), Apply(s, NoServers(k, true)));
      LeadsOne(Steps(), s, NoServers(k, false), Apply(s, NoServers(k, false)));
    }
  }

  /** A lost connection is closed; a check that reached nobody makes room for the next. */
  lemma LosesConnection(s: State)
    requires !s.freed && s.thread.Looping?
    ensures s.current.Some? ==>
      Leads(Steps(), s, [ConnectionFailed], s.(current := None, closed := s.closed + [s.current.value]))
    ensures s.result.NotReachable? ==> Leads(Steps(), s, [Acknowledge], s.(result := RttIdle))
  {
    if s.current.Some? { LeadsOne(Steps(), s, ConnectionFailed, Apply(s, ConnectionFailed)); }
    if s.result.NotReachable? { LeadsOne(Steps(), s, Acknowledge, Apply(s, Acknowledge)); }
  }

  /** At the end of the uplink both connections it may have are closed. */
  lemma EndCloses(s: State)
    requires !s.freed && s.thread.Looping? && forall k :: 0 <= k < |s.checks| ==> s.checks[k].Resting?
    ensures Leads(Steps(), s, [Exit, Free],
      s.(thread := Gone, freed := true, current := None, better := None,
         closed := s.closed + (if s.current.Some? then [s.current.value] else [])
           + if s.better.Some? then [s.better.value] else []))
  {
    var s1 := Apply(s, Exit);
    LeadsTwo(Steps(), s, Exit, s1, Free, Apply(s1, Free));
  }

  function AtRest(n: nat): seq<Check> { seq(n, _ => Resting) }

  /** An uplink made with a connection takes it over first; one made without has none and no check running. */
  lemma StartsWithConnection(n: nat)
    ensures var checks := AtRest(n);
      && Init()(State(RttIdle, None, None, checks, Looping, 0, [], false, false))
      && var s := State(DoChange, Some(0), None, checks, Looping, 1, [], false, false);
      && Init()(s)
      && Leads(Steps(), s, [See, Take, CloseOld],
           State(RttIdle, None, Some(0), checks, Looping, 1, [], false, false))
  {
    var s := State(DoChange, Some(0), None, AtRest(n), Looping, 1, [], false, false);
    var s1 := Apply(s, See);
    var s2 := Apply(s1, Take);
    var s3 := Apply(s2, CloseOld);
    assert s3 == State(RttIdle, None, Some(0), AtRest(n), Looping, 1, [], false, false);
    LeadsThree(Steps(), s, See, s1, Take, s2, CloseOld, s3);
  }
}
