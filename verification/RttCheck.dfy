/** One RTT check of `altservers.c`: probing the candidate servers and keeping the best connection open. */
module RttCheck {

  /** 10 seconds in microseconds: slower servers are not switched to. */
  const TOO_SLOW := 10000000
  const PENALTY := 50000
  const WORD32 := 0x1_0000_0000

  /** How probing a server went; a socket is open unless the connect failed. */
  datatype Probe = NoConnect | Failed | Measured(average: nat, isCurrent: bool)

  datatype Decision = Change | DontChange | NotReachable

  /** The average, doubled and more for a server that lost the connection or closed a cycle; 32 bits wide. */
  function Cost(p: Probe, panic: bool, cycle: bool): nat
    requires p.Measured?
  {
    if (cycle || panic) && p.isCurrent then (p.average * 2 + PENALTY) % WORD32 else p.average
  }

  /** Server i could be switched to. */
  predicate Candidate(probes: seq<Probe>, panic: bool, cycle: bool, unreachable: nat, i: nat) {
    && i < |probes| && probes[i].Measured? && (panic || !probes[i].isCurrent)
    && Cost(probes[i], panic, cycle) < unreachable
  }

  /** The first among the cheapest candidates, -1 if there is none. */
  ghost predicate IsBest(probes: seq<Probe>, panic: bool, cycle: bool, unreachable: nat, best: int) {
    if best == -1 then forall i: nat :: !Candidate(probes, panic, cycle, unreachable, i)
    else best >= 0 && Candidate(probes, panic, cycle, unreachable, best)
         && forall i: nat :: Candidate(probes, panic, cycle, unreachable, i) ==>
              Cost(probes[best], panic, cycle) <= Cost(probes[i], panic, cycle)
              && (i < best ==> Cost(probes[best], panic, cycle) < Cost(probes[i], panic, cycle))
  }

  /** The sockets opened, by the index of their server. */
  function Opened(probes: seq<Probe>): multiset<nat> {
    if probes == [] then multiset{} else
    var n := |probes| - 1;
    Opened(probes[..n]) + if probes[n].NoConnect? then multiset{} else multiset{n}
  }

  /** What the last measurement of the current server gave, when still connected to it. */
  function CurrentCost(probes: seq<Probe>, panic: bool, cycle: bool, unreachable: nat): nat {
    if probes == [] then unreachable else
    var n := |probes| - 1;
    if probes[n].Measured? && probes[n].isCurrent && !panic then Cost(probes[n], panic, cycle)
    else CurrentCost(probes[..n], panic, cycle, unreachable)
  }

  function NextBest(probes: seq<Probe>, panic: bool, cycle: bool, unreachable: nat, i: nat, best: int): int
    requires i < |probes| && -1 <= best < i && (best >= 0 ==> probes[best].Measured?)
  {
    if Candidate(probes, panic, cycle, unreachable, i)
      && (best == -1 || Cost(probes[i], panic, cycle) < Cost(probes[best], panic, cycle))
    then i else best
  }

  lemma BestStep(probes: seq<Probe>, panic: bool, cycle: bool, unreachable: nat, i: nat, best: int)
    requires i < |probes| && -1 <= best < i && IsBest(probes[..i], panic, cycle, unreachable, best)
    ensures best >= 0 ==> probes[best].Measured?
    ensures IsBest(probes[..i + 1], panic, cycle, unreachable, NextBest(probes, panic, cycle, unreachable, i, best))
  {
    var next, sofar := NextBest(probes, panic, cycle, unreachable, i, best), probes[..i + 1];
    assert next >= 0 ==> Candidate(sofar, panic, cycle, unreachable, next);
    forall k: nat | Candidate(sofar, panic, cycle, unreachable, k)
      ensures next >= 0 && Cost(sofar[next], panic, cycle) <= Cost(sofar[k], panic, cycle)
      ensures k < next ==> Cost(sofar[next], panic, cycle) < Cost(sofar[k], panic, cycle) {
      assert k < i ==> Candidate(probes[..i], panic, cycle, unreachable, k) && sofar[k] == probes[..i][k];
    }
  }

  /** The sockets still open: the best one, if any. */
  function Kept(best: int): multiset<nat> { if best >= 0 then multiset{best as nat} else multiset{} }

  lemma PrefixStep(probes: seq<Probe>, panic: bool, cycle: bool, unreachable: nat, i: nat)
    requires i < |probes|
    ensures Opened(probes[..i + 1]) == Opened(probes[..i]) + if probes[i].NoConnect? then multiset{} else multiset{i}
    ensures CurrentCost(probes[..i + 1], panic, cycle, unreachable) ==
      if probes[i].Measured? && probes[i].isCurrent && !panic then Cost(probes[i], panic, cycle)
      else CurrentCost(probes[..i], panic, cycle, unreachable)
  {
    assert probes[..i + 1][..i] == probes[..i];
  }

  /** The best connection so far, and what it costs. */
  predicate Costs(probes: seq<Probe>, panic: bool, cycle: bool, unreachable: nat, best: int, bestRtt: nat) {
    if best < 0 then bestRtt == unreachable
    else best < |probes| && probes[best].Measured? && bestRtt == Cost(probes[best], panic, cycle) < unreachable
  }

  /** One server of the loop: which sockets are closed because of it. */
  method ProbeOne(probes: seq<Probe>, panic: bool, cycle: bool, unreachable: nat, i: nat, best: int, bestRtt: nat)
    returns (best': int, bestRtt': nat, closed: seq<nat>)
    requires i < |probes| && -1 <= best < i && Costs(probes, panic, cycle, unreachable, best, bestRtt)
    ensures best' == NextBest(probes, panic, cycle, unreachable, i, best)
    ensures Costs(probes, panic, cycle, unreachable, best', bestRtt')
    ensures multiset(closed) + Kept(best') == Kept(best) + if probes[i].NoConnect? then multiset{} else multiset{i}
  {
    best', bestRtt', closed := best, bestRtt, [];
    var p := probes[i];
    if p.Failed? {
      closed := [i];
    } else if p.Measured? {
      var cost := Cost(p, panic, cycle);
      if !panic && p.isCurrent {
        closed := [i];
      } else if cost < bestRtt {
        if best != -1 {
          closed := [best];
        }
        best', bestRtt' := i, cost;
      } else {
        closed := [i];
      }
    }
  }

  lemma MoreClosed(closed: seq<nat>, more: seq<nat>, kept: multiset<nat>, kept': multiset<nat>,
      sockets: multiset<nat>, newOne: multiset<nat>)
    requires multiset(closed) + kept == sockets && multiset(more) + kept' == kept + newOne
    ensures multiset(closed + more) + kept' == sockets + newOne
  {
    var c, m := multiset(closed), multiset(more);
    assert multiset(closed + more) == c + m;
    assert c + m + kept' == c + (m + kept') == c + (kept + newOne) == c + kept + newOne;
  }

  /** What the loop has found out about the first i servers. */
  ghost predicate Sofar(probes: seq<Probe>, panic: bool, cycle: bool, unreachable: nat, i: nat, best: int,
      currentRtt: nat, closed: seq<nat>)
    requires i <= |probes|
  {
    && IsBest(probes[..i], panic, cycle, unreachable, best)
    && currentRtt == CurrentCost(probes[..i], panic, cycle, unreachable)
    && multiset(closed) + Kept(best) == Opened(probes[..i])
  }

  lemma SofarStep(probes: seq<Probe>, panic: bool, cycle: bool, unreachable: nat, i: nat, best: int,
      currentRtt: nat, closed: seq<nat>, next: int, more: seq<nat>)
    requires i < |probes| && -1 <= best < i && Sofar(probes, panic, cycle, unreachable, i, best, currentRtt, closed)
    requires best >= 0 ==> probes[best].Measured?
    requires next == NextBest(probes, panic, cycle, unreachable, i, best)
    requires multiset(more) + Kept(next) == Kept(best) + if probes[i].NoConnect? then multiset{} else multiset{i}
    ensures Sofar(probes, panic, cycle, unreachable, i + 1, next,
      if probes[i].Measured? && probes[i].isCurrent && !panic then Cost(probes[i], panic, cycle) else currentRtt,
      closed + more)
  {
    PrefixStep(probes, panic, cycle, unreachable, i);
    BestStep(probes, panic, cycle, unreachable, i, best);
    MoreClosed(closed, more, Kept(best), Kept(next), Opened(probes[..i]),
      if probes[i].NoConnect? then multiset{} else multiset{i});
  }

  /** The loop over the servers: all sockets but the best are closed, each once. */
  method ProbeAll(probes: seq<Probe>, panic: bool, cycle: bool, unreachable: nat)
    returns (best: int, bestRtt: nat, currentRtt: nat, closed: seq<nat>)
    ensures -1 <= best < |probes| && IsBest(probes, panic, cycle, unreachable, best)
    ensures best >= 0 ==> bestRtt == Cost(probes[best], panic, cycle)
    ensures currentRtt == CurrentCost(probes, panic, cycle, unreachable)
    ensures multiset(closed) + Kept(best) == Opened(probes)
  {
    best, closed := -1, [];
    bestRtt, currentRtt := unreachable, unreachable;
    var i := 0;
    while i < |probes|
      invariant i <= |probes| && -1 <= best < i && Costs(probes, panic, cycle, unreachable, best, bestRtt)
      invariant Sofar(probes, panic, cycle, unreachable, i, best, currentRtt, closed)
    {
      var next, nextRtt, more := ProbeOne(probes, panic, cycle, unreachable, i, best, bestRtt);
      SofarStep(probes, panic, cycle, unreachable, i, best, currentRtt, closed, next, more);
      best, bestRtt, closed := next, nextRtt, closed + more;
      if probes[i].Measured? && probes[i].isCurrent && !panic {
        currentRtt := Cost(probes[i], panic, cycle);
      }
      i := i + 1;
    }
    assert probes[..i] == probes;
  }

  /**
   `altservers_findUplinkInternal` once the servers are chosen: the winner is the cheapest server, its
   connection is handed over exactly when switching pays off, and every other socket is closed exactly
   once. `factor` is the threshold a better server has to beat, `unreachable` stands for no measurement.
   */
  method FindUplink(probes: seq<Probe>, panic: bool, cycle: bool, unreachable: nat, factor: nat -> nat)
    returns (decision: Decision, winner: int, closed: seq<nat>)
    ensures -1 <= winner < |probes| && IsBest(probes, panic, cycle, unreachable, winner)
    ensures decision.Change? <==>
      winner >= 0 && (panic || (Cost(probes[winner], panic, cycle) < 10_000_000
        && factor(CurrentCost(probes, panic, cycle, unreachable)) > Cost(probes[winner], panic, cycle)))
    ensures decision.NotReachable? <==> winner == -1 && CurrentCost(probes, panic, cycle, unreachable) == unreachable
    ensures multiset(closed) + (if decision.Change? then Kept(winner) else multiset{}) == Opened(probes)
  {
    var bestRtt, currentRtt;
    winner, bestRtt, currentRtt, closed := ProbeAll(probes, panic, cycle, unreachable);
    if winner != -1 && (panic || (bestRtt < TOO_SLOW && factor(currentRtt) > bestRtt)) {
      decision := Change;
    } else if winner == -1 && currentRtt == unreachable {
      decision := NotReachable;
    } else {
      if winner != -1 {
        closed := closed + [winner];
      }
      decision := DontChange;
    }
  }

  lemma BestIsUnique(probes: seq<Probe>, panic: bool, cycle: bool, unreachable: nat, a: int, b: int)
    requires IsBest(probes, panic, cycle, unreachable, a) && IsBest(probes, panic, cycle, unreachable, b)
    ensures a == b
  {
  }

  // ----- who is preferred -----

  /**
   After a lost connection or a cycle, the current server and another one with the same average: the other is
   cheaper, exactly as long as the doubled average plus 50 ms does not wrap around 32 bits too far.
   */
  lemma OtherIsCheaperExactlyIf(average: nat, panic: bool, cycle: bool)
    requires average < 0x1_0000_0000 && (panic || cycle)
    ensures Cost(Measured(average, false), panic, cycle) < Cost(Measured(average, true), panic, cycle) <==>
      average < 2147458648 || 4294917296 < average < 4294942296
  {
    var doubled := average * 2 + 50_000;
    if doubled < WORD32 {
      assert doubled % WORD32 == doubled;
    } else if doubled < 2 * WORD32 {
      assert doubled % WORD32 == doubled - WORD32;
    } else {
      assert doubled % WORD32 == doubled - 2 * WORD32;
    }
  }

  /** As long as nothing was lost, the averages alone count. */
  lemma NoPenalty(average: nat, isCurrent: bool)
    ensures Cost(Measured(average, isCurrent), false, false) == average
  {
  }

  /**
   After a lost connection the server it was lost to is not gone back to while another one, no slower than
   that, can be reached.
   */
  lemma LostServerIsAvoided(probes: seq<Probe>, cycle: bool, unreachable: nat, best: int, i: nat, j: nat)
    requires IsBest(probes, true, cycle, unreachable, best) && i < |probes| && j < |probes|
    requires probes[i].Measured? && probes[i].isCurrent && probes[j].Measured? && !probes[j].isCurrent
    requires probes[j].average <= probes[i].average < 2147458648 && probes[j].average < unreachable
    ensures best >= 0 && best != i
  {
    assert Candidate(probes, true, cycle, unreachable, j);
  }

  /** While connected, the winner is never the current server, and no other candidate has a smaller average. */
  lemma WinnerIsFastest(probes: seq<Probe>, cycle: bool, unreachable: nat, best: int, j: nat)
    requires IsBest(probes, false, cycle, unreachable, best)
    requires j < |probes| && probes[j].Measured? && !probes[j].isCurrent && probes[j].average < unreachable
    ensures 0 <= best < |probes| && probes[best].Measured? && !probes[best].isCurrent
    ensures probes[best].average <= probes[j].average && (j < best ==> probes[best].average < probes[j].average)
  {
    assert Candidate(probes, false, cycle, unreachable, j);
  }

  /** The current server is measured by its last measurement, doubled and 50 ms more in a cycle; 2^32 wraps. */
  lemma {:induction false} CurrentIsMeasured(probes: seq<Probe>, cycle: bool, unreachable: nat, i: nat)
    requires i < |probes| && probes[i].Measured? && probes[i].isCurrent
    requires forall k :: i < k < |probes| && probes[k].Measured? ==> !probes[k].isCurrent
    ensures CurrentCost(probes, false, cycle, unreachable)
      == if cycle then (2 * probes[i].average + 50_000) % 0x1_0000_0000 else probes[i].average
  {
    var n := |probes| - 1;
    if i < n { CurrentIsMeasured(probes[..n], cycle, unreachable, i); }
  }

  /** Nothing is known of the current server if it was lost, or was not measured. */
  lemma {:induction false} CurrentIsUnknown(probes: seq<Probe>, panic: bool, cycle: bool, unreachable: nat)
    requires panic || forall k :: 0 <= k < |probes| && probes[k].Measured? ==> !probes[k].isCurrent
    ensures CurrentCost(probes, panic, cycle, unreachable) == unreachable
  {
    if probes != [] { CurrentIsUnknown(probes[..|probes| - 1], panic, cycle, unreachable); }
  }

  /** A socket is opened, once, for every server that could be connected to. */
  lemma {:induction false} OpenedExactlyIf(probes: seq<Probe>, i: nat)
    ensures Opened(probes)[i] == if i < |probes| && !probes[i].NoConnect? then 1 else 0
  {
    if probes != [] { OpenedExactlyIf(probes[..|probes| - 1], i); }
  }
}
