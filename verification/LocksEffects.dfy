/** What the checked lock operations come to for a thread that is not kept waiting. */
module LocksEffects {
  import opened Locks
  import opened Options
  import opened Runs

  ghost function Steps(): (State, Action, State) -> bool {
    (s: State, a: Action, s': State) => Shape(s) && Enabled(s, a) && s' == Apply(s, a)
  }

  /** All mutexes thread t has noted have a lower priority. */
  ghost predicate Above(s: State, t: nat, l: nat)
    requires Shape(s) && t < |s.slots| && l < |s.locks|
  {
    forall m :: 0 <= m < |s.locks| && Some(m) in s.slots[t] ==> s.locks[m].prio < s.locks[l].prio
  }

  /** Thread t has mutex l, and its notes and the bookkeeping say so; all else is as in s. */
  ghost predicate Locked(s: State, s': State, t: nat, l: nat)
    requires Shape(s) && t < |s.slots| && l < |s.locks|
  {
    && s'.owner == s.owner[l := Some(t)] && s'.phases == s.phases && !s'.fault
    && s'.locks == s.locks[l := s.locks[l].(locked := true, thread := t)]
    && |s'.slots| == |s.slots| && (forall u :: 0 <= u < |s.slots| && u != t ==> s'.slots[u] == s.slots[u])
    && forall m: nat :: Some(m) in s'.slots[t] <==> Some(m) in s.slots[t] || m == l
  }

  lemma AboveIsOrder(s: State, t: nat, l: nat)
    requires Shape(s) && t < |s.slots| && l < |s.locks|
    ensures Above(s, t, l) <==> OrderOk(s.locks, s.slots[t], l)
  {
    assert SlotsOk(s.locks, s.slots[t]);
    forall i | 0 <= i < |s.slots[t]| && s.slots[t][i].Some? ensures Some(s.slots[t][i].value) in s.slots[t] {}
  }

  lemma Acquires(s: State, t: nat, l: nat, try_: bool) returns (s1: State, s': State)
    requires Inv(s) && 0 < t < |s.phases| && s.phases[t].Running? && l < |s.locks| && s.owner[l].None? && Above(s, t, l)
    ensures Steps()(s, Lock(t, l, try_), s1) && Steps()(s1, Acquire(t), s')
    ensures Inv(s') && FreeSlot(s.slots[t]) < |s.slots[t]|
    ensures s' == s.(owner := s.owner[l := Some(t)], phases := s.phases[t := Recording(l, FreeSlot(s.slots[t]))])
  {
    AboveIsOrder(s, t, l);
    SlotLeft(s, t);
    s1 := Apply(s, Lock(t, l, try_));
    KeepsInv(s, Lock(t, l, try_));
    s' := Apply(s1, Acquire(t));
    KeepsInv(s1, Acquire(t));
  }

  /**
   A free mutex above all the thread has: after locking it, or trying to, the thread really has it, and
   the notes and the bookkeeping say so.
   */
  lemma LockTakes(s: State, t: nat, l: nat, try_: bool) returns (s': State)
    requires Inv(s) && 0 < t < |s.phases| && s.phases[t].Running? && l < |s.locks| && s.owner[l].None? && Above(s, t, l)
    ensures Leads(Steps(), s, [Lock(t, l, try_), Acquire(t), Record(t)], s') && Inv(s') && Locked(s, s', t, l)
  {
    var s1, s2 := Acquires(s, t, l, try_);
    s' := Apply(s2, Record(t));
    KeepsInv(s2, Record(t));
    RecordIsFree(s2, t);
    LeadsThree(Steps(), s, Lock(t, l, try_), s1, Acquire(t), s2, Record(t), s');
    assert s'.phases == s.phases;
    forall m: nat ensures Some(m) in s'.slots[t] <==> Some(m) in s.slots[t] || m == l {
      AddedNote(s.slots[t], FreeSlot(s.slots[t]), l, m);
    }
  }

  /** Trying to lock a mutex somebody else has changes nothing. */
  lemma TryFails(s: State, t: nat, l: nat)
    requires Inv(s) && 0 < t < |s.phases| && s.phases[t].Running? && l < |s.locks| && s.owner[l].Some? && Above(s, t, l)
    ensures Leads(Steps(), s, [Lock(t, l, true), Busy(t)], s)
  {
    AboveIsOrder(s, t, l);
    SlotLeft(s, t);
    var s1 := Apply(s, Lock(t, l, true));
    KeepsInv(s, Lock(t, l, true));
    assert Apply(s1, Busy(t)).phases == s.phases;
    LeadsTwo(Steps(), s, Lock(t, l, true), s1, Busy(t), Apply(s1, Busy(t)));
  }

  /** Nobody has mutex l, and no note of thread t nor the bookkeeping says otherwise; all else is as in s. */
  ghost predicate Unlocked(s: State, s': State, t: nat, l: nat)
    requires Shape(s) && t < |s.slots| && l < |s.locks|
  {
    && s'.owner == s.owner[l := None] && s'.phases == s.phases && !s'.fault
    && s'.locks == s.locks[l := s.locks[l].(locked := false, thread := 0)]
    && |s'.slots| == |s.slots| && (forall u :: 0 <= u < |s.slots| && u != t ==> s'.slots[u] == s.slots[u])
    && forall m: nat :: Some(m) in s'.slots[t] <==> Some(m) in s.slots[t] && m != l
  }

  /** Unlocking a mutex the thread has noted gives it back. */
  lemma UnlockGives(s: State, t: nat, l: nat) returns (s': State)
    requires Inv(s) && 0 < t < |s.phases| && s.phases[t].Running? && l < |s.locks| && Some(l) in s.slots[t]
    ensures Leads(Steps(), s, [Unlock(t, l), Release(t)], s') && Inv(s') && Unlocked(s, s', t, l)
  {
    HeldIsMarked(s, t, l);
    var s1 := Apply(s, Unlock(t, l));
    KeepsInv(s, Unlock(t, l));
    s' := Apply(s1, Release(t));
    KeepsInv(s1, Release(t));
    LeadsTwo(Steps(), s, Unlock(t, l), s1, Release(t), s');
    assert s'.phases == s.phases;
    forall m: nat ensures Some(m) in s'.slots[t] <==> Some(m) in s.slots[t] && m != l {
      RemovedNote(s.locks, s.slots[t], l, m);
    }
  }

  lemma HeldIsMarked(s: State, t: nat, l: nat)
    requires Inv(s) && 0 < t < |s.phases| && s.phases[t].Running? && l < |s.locks| && Some(l) in s.slots[t]
    ensures s.owner[l] == Some(t) && s.locks[l].locked && s.locks[l].thread == t
    ensures SlotOf(s.slots[t], l) < MAX_HELD && SlotsOk(s.locks, s.slots[t]) && Distinct(s.locks, s.slots[t])
  {
    assert Agrees(s, t, l) && Noted(s, t, l) && PhaseOk(s, t);
    var i :| 0 <= i < |s.slots[t]| && s.slots[t][i] == Some(l);
  }

  /** Thread t waits on a condition: it keeps its note, but the mutex is free for others. */
  ghost function Asleep(s: State, t: nat, l: nat): State
    requires t < |s.phases| && l < |s.locks| && l < |s.owner|
  {
    s.(owner := s.owner[l := None], locks := s.locks[l := s.locks[l].(locked := false, thread := 0)],
       phases := s.phases[t := Waiting(l)])
  }

  /** Waiting with the highest mutex the thread has frees it, and waking up while it is free takes it again. */
  lemma WaitComesBack(s: State, t: nat, l: nat)
    requires Inv(s) && 0 < t < |s.phases| && s.phases[t].Running? && l < |s.locks| && Some(l) in s.slots[t]
    requires forall m :: 0 <= m < |s.locks| && Some(m) in s.slots[t] && m != l ==> s.locks[m].prio < s.locks[l].prio
    ensures Leads(Steps(), s, [Yield(t, l), Sleep(t)], Asleep(s, t, l))
    ensures Leads(Steps(), Asleep(s, t, l), [Wake(t), Regain(t), Resume(t)], s)
  {
    FallsAsleep(s, t, l);
    WakesUp(s, Asleep(s, t, l), t, l);
  }

  lemma FallsAsleep(s: State, t: nat, l: nat)
    requires Inv(s) && 0 < t < |s.phases| && s.phases[t].Running? && l < |s.locks| && Some(l) in s.slots[t]
    requires forall m :: 0 <= m < |s.locks| && Some(m) in s.slots[t] && m != l ==> s.locks[m].prio < s.locks[l].prio
    ensures Leads(Steps(), s, [Yield(t, l), Sleep(t)], Asleep(s, t, l)) && Inv(Asleep(s, t, l))
  {
    HeldIsMarked(s, t, l);
    HighestMayWait(s, t, l);
    var s1 := Apply(s, Yield(t, l));
    KeepsInv(s, Yield(t, l));
    KeepsInv(s1, Sleep(t));
    assert Apply(s1, Sleep(t)).phases == Asleep(s, t, l).phases;
    LeadsTwo(Steps(), s, Yield(t, l), s1, Sleep(t), Apply(s1, Sleep(t)));
  }

  lemma HighestMayWait(s: State, t: nat, l: nat)
    requires Inv(s) && t < |s.slots| && l < |s.locks| && Some(l) in s.slots[t]
    requires forall m :: 0 <= m < |s.locks| && Some(m) in s.slots[t] && m != l ==> s.locks[m].prio < s.locks[l].prio
    ensures YieldOk(s.locks, s.slots[t], l)
  {
    assert SlotsOk(s.locks, s.slots[t]) && LockOk(s, l);
    forall i | 0 <= i < |s.slots[t]| && s.slots[t][i].Some? ensures Some(s.slots[t][i].value) in s.slots[t] {}
  }

  lemma WakesUp(s: State, s1: State, t: nat, l: nat)
    requires Inv(s) && 0 < t < |s.phases| && s.phases[t].Running? && l < |s.locks| && Some(l) in s.slots[t]
    requires s1 == Asleep(s, t, l) && Inv(s1)
    ensures Leads(Steps(), s1, [Wake(t), Regain(t), Resume(t)], s)
  {
    HeldIsMarked(s, t, l);
    var s2 := Apply(s1, Wake(t));
    KeepsInv(s1, Wake(t));
    var s3 := Apply(s2, Regain(t));
    KeepsInv(s2, Regain(t));
    RecordIsFree(s3, t);
    var s4 := Apply(s3, Resume(t));
    assert s4.phases == s.phases && s4.owner == s.owner && s4.locks == s.locks;
    LeadsThree(Steps(), s1, Wake(t), s2, Regain(t), s3, Resume(t), s4);
  }

  /** All this starts with free mutexes of the known priorities and threads that hold nothing. */
  lemma StartsFree(prios: seq<int>, threads: nat)
    requires forall i :: 0 <= i < |prios| ==> prios[i] in PRIORITIES
    ensures Init()(State(seq(|prios|, i requires 0 <= i < |prios| => LockRec(i + 1, false, 0, prios[i])),
      seq(threads, _ => seq(20, _ => None)), seq(threads, _ => Running), seq(|prios|, _ => None), false))
  {
  }
}
