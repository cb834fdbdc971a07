/**
 The lock-order checks of `locks.c` over whole runs. Every mutex has a priority; a thread may only take
 a mutex above all it holds, and only wait on a condition with its highest mutex. Each lock section of
 the checker and each mutex operation is one step.
 */
module Locks {
  import opened Options
  import opened Runs

  /** Locks one thread can hold at a time. */
  const MAX_HELD := 20

  /** The priorities `locks.h` defines. */
  const PRIORITIES: seq<int> := [90, 100, 110, 120, 130, 140, 150, 160, 170, 180, 190, 200, 210, 220, 300, 310]

  /** Bookkeeping of a mutex; thread 0 stands for none. */
  datatype LockRec = LockRec(mutex: nat, locked: bool, thread: nat, prio: int)

  type Slots = seq<Option<nat>>

  predicate SlotsOk(locks: seq<LockRec>, slots: Slots) {
    |slots| == MAX_HELD && forall i :: 0 <= i < |slots| && slots[i].Some? ==> slots[i].value < |locks|
  }

  /** The order check of `debug_mutex_lock`. */
  predicate OrderOk(locks: seq<LockRec>, slots: Slots, l: nat)
    requires SlotsOk(locks, slots) && l < |locks|
  {
    forall i :: 0 <= i < |slots| && slots[i].Some? ==> locks[slots[i].value].prio < locks[l].prio
  }

  /** The order check of `debug_mutex_cond_wait`. */
  predicate YieldOk(locks: seq<LockRec>, slots: Slots, l: nat)
    requires SlotsOk(locks, slots) && l < |locks|
  {
    locks[l].prio > 0
    && forall i :: 0 <= i < |slots| && slots[i].Some? && slots[i].value != l ==>
      locks[slots[i].value].prio < locks[l].prio
  }

  function FreeSlot(slots: Slots): (k: nat)
    ensures k <= |slots| && (k < |slots| ==> slots[k].None?) && forall i :: 0 <= i < k ==> slots[i].Some?
  {
    if slots == [] || slots[0].None? then 0 else 1 + FreeSlot(slots[1..])
  }

  function SlotOf(slots: Slots, l: nat): (k: nat)
    ensures k <= |slots| && (k < |slots| ==> slots[k] == Some(l)) && forall i :: 0 <= i < k ==> slots[i] != Some(l)
  {
    if slots == [] || slots[0] == Some(l) then 0 else 1 + SlotOf(slots[1..], l)
  }

  function Taken(locks: seq<LockRec>, l: nat, self: nat): seq<LockRec>
    requires l < |locks|
  {
    locks[l := locks[l].(locked := true, thread := self)]
  }

  function Dropped(locks: seq<LockRec>, l: nat): seq<LockRec>
    requires l < |locks|
  {
    locks[l := locks[l].(locked := false, thread := 0)]
  }

  // ----- the machine -----

  datatype Phase =
    | Running
    | Blocked(l: nat, idx: nat, try_: bool) // order checked, inside pthread_mutex_lock
    | Recording(l: nat, idx: nat)           // mutex acquired, not yet noted; `l->thread` is set with the note
    | Unlocking(l: nat)                     // note removed, mutex not yet released
    | Yielding(l: nat)                      // note cleared, about to wait
    | Waiting(l: nat)                       // inside pthread_cond_wait, mutex released
    | Reacquiring(l: nat)                   // signalled, blocked on the mutex again
    | Regained(l: nat)                      // has the mutex again, not yet noted

  /** Thread numbers index slots and phases, 0 is unused; owner[l] is who really holds mutex l. */
  datatype State = State(locks: seq<LockRec>, slots: seq<Slots>, phases: seq<Phase>, owner: seq<Option<nat>>,
    fault: bool)

  /** A call the checker rejects as the caller's mistake ends the program, so it is not a step. */
  datatype Action =
    | Lock(t: nat, l: nat, try_: bool)
    | Acquire(t: nat)
    | Busy(t: nat)
    | Record(t: nat)
    | Unlock(t: nat, l: nat)
    | Release(t: nat)
    | Yield(t: nat, l: nat)
    | Sleep(t: nat)
    | Wake(t: nat)
    | Regain(t: nat)
    | Resume(t: nat)

  ghost predicate Shape(s: State) {
    && |s.slots| == |s.phases| && |s.owner| == |s.locks|
    && (forall t :: 0 <= t < |s.slots| ==> SlotsOk(s.locks, s.slots[t]))
    && (forall t :: 0 <= t < |s.phases| && !s.phases[t].Running? ==> s.phases[t].l < |s.locks|)
    && (forall t :: 0 <= t < |s.phases| && (s.phases[t].Blocked? || s.phases[t].Recording?) ==>
      s.phases[t].idx < MAX_HELD)
  }

  ghost predicate Enabled(s: State, a: Action)
    requires Shape(s)
  {
    && 0 < a.t < |s.phases| && var p := s.phases[a.t];
    match a
    case Lock(t, l, _) => p.Running? && l < |s.locks| && OrderOk(s.locks, s.slots[t], l)
    case Acquire(t) => p.Blocked? && s.owner[p.l].None?
    case Busy(t) => p.Blocked? && p.try_ && s.owner[p.l].Some?
    case Record(t) => p.Recording?
    case Unlock(t, l) => p.Running? && l < |s.locks| && SlotOf(s.slots[t], l) < MAX_HELD
    case Release(t) => p.Unlocking?
    case Yield(t, l) =>
      p.Running? && l < |s.locks| && SlotOf(s.slots[t], l) < MAX_HELD && YieldOk(s.locks, s.slots[t], l)
    case Sleep(t) => p.Yielding?
    case Wake(t) => p.Waiting?
    case Regain(t) => p.Reacquiring? && s.owner[p.l].None?
    case Resume(t) => p.Regained?
  }

  ghost function Apply(s: State, a: Action): State
    requires Shape(s) && Enabled(s, a)
  {
    var p := s.phases[a.t];
    match a
    case Lock(t, l, try_) =>
      var idx := FreeSlot(s.slots[t]);
      if idx == MAX_HELD then s.(fault := true) else s.(phases := s.phases[t := Blocked(l, idx, try_)])
    case Acquire(t) => s.(owner := s.owner[p.l := Some(t)], phases := s.phases[t := Recording(p.l, p.idx)])
    case Busy(t) => s.(phases := s.phases[t := Running])
    case Record(t) =>
      if s.locks[p.l].locked then s.(fault := true) else
      s.(locks := Taken(s.locks, p.l, t), slots := s.slots[t := s.slots[t][p.idx := Some(p.l)]],
        phases := s.phases[t := Running])
    case Unlock(t, l) =>
      if s.locks[l].thread != t || !s.locks[l].locked then s.(fault := true) else
      s.(locks := Dropped(s.locks, l), slots := s.slots[t := s.slots[t][SlotOf(s.slots[t], l) := None]],
         phases := s.phases[t := Unlocking(l)])
    case Release(t) => s.(owner := s.owner[p.l := None], phases := s.phases[t := Running])
    case Yield(t, l) =>
      if s.locks[l].thread != t || !s.locks[l].locked then s.(fault := true) else
      s.(locks := Dropped(s.locks, l), phases := s.phases[t := Yielding(l)])
    case Sleep(t) => s.(owner := s.owner[p.l := None], phases := s.phases[t := Waiting(p.l)])
    case Wake(t) => s.(phases := s.phases[t := Reacquiring(p.l)])
    case Regain(t) => s.(owner := s.owner[p.l := Some(t)], phases := s.phases[t := Regained(p.l)])
    case Resume(t) =>
      if s.locks[p.l].locked || s.locks[p.l].thread != 0 then s.(fault := true) else
      s.(locks := Taken(s.locks, p.l, t), phases := s.phases[t := Running])
  }

  // ----- the invariant -----

  predicate Noted(s: State, t: nat, l: nat)
    requires t < |s.slots|
  {
    Some(l) in s.slots[t]
  }

  predicate Away(p: Phase, l: nat) { (p.Waiting? || p.Reacquiring?) && p.l == l }

  predicate InWait(p: Phase) { p.Yielding? || p.Waiting? || p.Reacquiring? || p.Regained? }

  /** Thread t really has mutex l, by its notes and its place in the code. */
  predicate Has(s: State, t: nat, l: nat)
    requires t < |s.slots| == |s.phases|
  {
    var p := s.phases[t];
    (Noted(s, t, l) && !Away(p, l)) || ((p.Recording? || p.Unlocking?) && p.l == l)
  }

  /** The bookkeeping says that thread t has mutex l. */
  predicate Marked(s: State, t: nat, l: nat)
    requires t < |s.slots| == |s.phases|
  {
    Noted(s, t, l) && !(InWait(s.phases[t]) && s.phases[t].l == l)
  }

  /** Notes, bookkeeping and real ownership agree about thread t and mutex l. */
  ghost predicate Agrees(s: State, t: nat, l: nat)
    requires Shape(s) && t < |s.slots| && l < |s.locks|
  {
    && (s.owner[l] == Some(t) <==> Has(s, t, l))
    && (s.locks[l].locked && s.locks[l].thread == t <==> Marked(s, t, l))
  }

  ghost predicate LockOk(s: State, l: nat)
    requires Shape(s) && l < |s.locks|
  {
    && (s.owner[l].Some? ==> 0 < s.owner[l].value < |s.slots|)
    && (if s.locks[l].locked then 0 < s.locks[l].thread < |s.slots| else s.locks[l].thread == 0)
    && s.locks[l].prio in PRIORITIES
  }

  ghost predicate PhaseOk(s: State, t: nat)
    requires Shape(s) && t < |s.slots|
  {
    match s.phases[t]
    case Running => true
    case Blocked(l, idx, _) => OrderOk(s.locks, s.slots[t], l) && s.slots[t][idx].None?
    case Recording(l, idx) => OrderOk(s.locks, s.slots[t], l) && s.slots[t][idx].None?
    case Unlocking(l) => !Noted(s, t, l)
    case _ => Noted(s, t, s.phases[t].l) && YieldOk(s.locks, s.slots[t], s.phases[t].l)
  }

  /** The locks a thread has noted have pairwise different priorities. */
  predicate Distinct(locks: seq<LockRec>, slots: Slots)
    requires SlotsOk(locks, slots)
  {
    forall i, j :: 0 <= i < j < |slots| && slots[i].Some? && slots[j].Some? ==>
      locks[slots[i].value].prio != locks[slots[j].value].prio
  }

  ghost predicate Inv(s: State) {
    && Shape(s) && !s.fault
    && (forall t, l :: 0 <= t < |s.slots| && 0 <= l < |s.locks| ==> Agrees(s, t, l))
    && (forall l :: 0 <= l < |s.locks| ==> LockOk(s, l))
    && (forall t :: 0 <= t < |s.slots| ==> PhaseOk(s, t) && Distinct(s.locks, s.slots[t]))
  }

  lemma AddedNote(slots: Slots, idx: nat, l: nat, m: nat)
    requires idx < |slots| && slots[idx].None?
    ensures Some(m) in slots[idx := Some(l)] <==> Some(m) in slots || m == l
  {
    var slots' := slots[idx := Some(l)];
    assert slots'[idx] == Some(l);
    if Some(m) in slots {
      var i :| 0 <= i < |slots| && slots[i] == Some(m);
      assert slots'[i] == Some(m);
    }
  }

  lemma RemovedNote(locks: seq<LockRec>, slots: Slots, l: nat, m: nat)
    requires SlotsOk(locks, slots) && Distinct(locks, slots) && SlotOf(slots, l) < |slots|
    ensures Some(m) in slots[SlotOf(slots, l) := None] <==> Some(m) in slots && m != l
  {
    var k := SlotOf(slots, l);
    var slots' := slots[k := None];
    if Some(m) in slots && m != l {
      var i :| 0 <= i < |slots| && slots[i] == Some(m);
      assert slots'[i] == Some(m);
    }
    if Some(m) in slots' {
      var i :| 0 <= i < |slots| && slots'[i] == Some(m);
      assert slots[i] == Some(m) && i != k;
    }
  }

  /** Only the owner's bookkeeping can say that a mutex is taken. */
  lemma MarkedIsOwner(s: State, l: nat)
    requires Inv(s) && l < |s.locks| && s.locks[l].locked
    ensures s.owner[l] == Some(s.locks[l].thread) && s.locks[l].thread < |s.slots| && Marked(s, s.locks[l].thread, l)
  {
    assert LockOk(s, l) && Agrees(s, s.locks[l].thread, l);
  }

  lemma KeepsAcquire(s: State, a: Action)
    requires Inv(s) && Enabled(s, a) && (a.Acquire? || a.Busy? || a.Wake? || a.Regain?)
    ensures Inv(Apply(s, a))
  {
    var s', t0, l0 := Apply(s, a), a.t, s.phases[a.t].l;
    assert PhaseOk(s, t0);
    forall t, l | 0 <= t < |s.slots| && 0 <= l < |s.locks| ensures Agrees(s', t, l) {
      assert Agrees(s, t, l) && Noted(s', t, l) == Noted(s, t, l);
    }
    forall l | 0 <= l < |s.locks| ensures LockOk(s', l) {
      assert LockOk(s, l);
    }
    forall t | 0 <= t < |s.slots| ensures PhaseOk(s', t) && Distinct(s'.locks, s'.slots[t]) {
      assert PhaseOk(s, t) && Distinct(s.locks, s.slots[t]);
    }
  }

  lemma KeepsRelease(s: State, a: Action)
    requires Inv(s) && Enabled(s, a) && (a.Release? || a.Sleep?)
    ensures Inv(Apply(s, a))
  {
    var s', t0, l0 := Apply(s, a), a.t, s.phases[a.t].l;
    assert PhaseOk(s, t0) && Agrees(s, t0, l0);
    forall t, l | 0 <= t < |s.slots| && 0 <= l < |s.locks| ensures Agrees(s', t, l) {
      assert Agrees(s, t, l) && Noted(s', t, l) == Noted(s, t, l);
    }
    forall l | 0 <= l < |s.locks| ensures LockOk(s', l) {
      assert LockOk(s, l);
    }
    forall t | 0 <= t < |s.slots| ensures PhaseOk(s', t) && Distinct(s'.locks, s'.slots[t]) {
      assert PhaseOk(s, t) && Distinct(s.locks, s.slots[t]);
    }
  }

  /** A mutex just acquired is never still marked as taken, so noting it never faults. */
  lemma RecordIsFree(s: State, t: nat)
    requires Inv(s) && 0 < t < |s.slots| && (s.phases[t].Recording? || s.phases[t].Regained?)
    ensures !s.locks[s.phases[t].l].locked && s.locks[s.phases[t].l].thread == 0
  {
    var l := s.phases[t].l;
    assert PhaseOk(s, t) && Agrees(s, t, l) && LockOk(s, l);
    if s.locks[l].locked {
      MarkedIsOwner(s, l);
    }
  }

  lemma RecordAgrees(s: State, a: Action, t: nat, l: nat)
    requires Inv(s) && Enabled(s, a) && a.Record? && !Apply(s, a).fault && t < |s.slots| && l < |s.locks|
    ensures Shape(Apply(s, a)) && Agrees(Apply(s, a), t, l)
  {
    var s', t0, l0 := Apply(s, a), a.t, s.phases[a.t].l;
    RecordIsFree(s, t0);
    assert PhaseOk(s, t0) && Agrees(s, t0, l0);
    AddedNote(s.slots[t0], s.phases[t0].idx, l0, l);
    assert Agrees(s, t, l) && Noted(s', t, l) == (Noted(s, t, l) || (t == t0 && l == l0));
  }

  lemma KeepsRecord(s: State, a: Action)
    requires Inv(s) && Enabled(s, a) && a.Record?
    ensures Inv(Apply(s, a))
  {
    var s' := Apply(s, a);
    RecordIsFree(s, a.t);
    assert PhaseOk(s, a.t);
    forall t, l | 0 <= t < |s.slots| && 0 <= l < |s.locks| ensures Agrees(s', t, l) {
      RecordAgrees(s, a, t, l);
    }
    forall l | 0 <= l < |s.locks| ensures LockOk(s', l) {
      assert LockOk(s, l);
    }
    forall t | 0 <= t < |s.slots| ensures PhaseOk(s', t) && Distinct(s'.locks, s'.slots[t]) {
      assert PhaseOk(s, t) && Distinct(s.locks, s.slots[t]);
    }
  }

  lemma NotedIsMarked(s: State, t: nat, l: nat)
    requires Inv(s) && 0 < t < |s.slots| && l < |s.locks| && s.phases[t].Running? && SlotOf(s.slots[t], l) < MAX_HELD
    ensures s.locks[l].locked && s.locks[l].thread == t && s.owner[l] == Some(t) && Noted(s, t, l)
  {
    assert Agrees(s, t, l) && s.slots[t][SlotOf(s.slots[t], l)] == Some(l);
  }

  lemma UnlockAgrees(s: State, a: Action, t: nat, l: nat)
    requires Inv(s) && Enabled(s, a) && a.Unlock? && !Apply(s, a).fault && t < |s.slots| && l < |s.locks|
    requires s.owner[a.l] == Some(a.t) && s.locks[a.l].thread == a.t
    ensures Shape(Apply(s, a)) && Agrees(Apply(s, a), t, l)
  {
    var s' := Apply(s, a);
    RemovedNote(s.locks, s.slots[a.t], a.l, l);
    assert Agrees(s, t, l) && Noted(s', t, l) == (Noted(s, t, l) && !(t == a.t && l == a.l));
  }

  lemma UnlockPhase(s: State, a: Action, t: nat)
    requires Inv(s) && Enabled(s, a) && a.Unlock? && !Apply(s, a).fault && t < |s.slots|
    ensures Shape(Apply(s, a)) && PhaseOk(Apply(s, a), t) && Distinct(Apply(s, a).locks, Apply(s, a).slots[t])
  {
  }

  lemma KeepsUnlock(s: State, a: Action)
    requires Inv(s) && Enabled(s, a) && a.Unlock?
    ensures Inv(Apply(s, a))
  {
    var s' := Apply(s, a);
    NotedIsMarked(s, a.t, a.l);
    forall t, l | 0 <= t < |s.slots| && 0 <= l < |s.locks| ensures Agrees(s', t, l) {
      UnlockAgrees(s, a, t, l);
    }
    forall l | 0 <= l < |s.locks| ensures LockOk(s', l) {
      assert LockOk(s, l);
    }
    forall t | 0 <= t < |s.slots| ensures PhaseOk(s', t) && Distinct(s'.locks, s'.slots[t]) {
      UnlockPhase(s, a, t);
    }
  }

  lemma YieldAgrees(s: State, a: Action, t: nat, l: nat)
    requires Inv(s) && Enabled(s, a) && a.Yield? && !Apply(s, a).fault && t < |s.slots| && l < |s.locks|
    ensures Shape(Apply(s, a)) && Agrees(Apply(s, a), t, l)
  {
    NotedIsMarked(s, a.t, a.l);
    assert Agrees(s, t, l) && Noted(Apply(s, a), t, l) == Noted(s, t, l);
  }

  lemma KeepsYield(s: State, a: Action)
    requires Inv(s) && Enabled(s, a) && a.Yield?
    ensures Inv(Apply(s, a))
  {
    var s' := Apply(s, a);
    NotedIsMarked(s, a.t, a.l);
    forall t, l | 0 <= t < |s.slots| && 0 <= l < |s.locks| ensures Agrees(s', t, l) {
      YieldAgrees(s, a, t, l);
    }
    forall l | 0 <= l < |s.locks| ensures LockOk(s', l) {
      assert LockOk(s, l);
    }
    forall t | 0 <= t < |s.slots| ensures PhaseOk(s', t) && Distinct(s'.locks, s'.slots[t]) {
      assert PhaseOk(s, t) && Distinct(s.locks, s.slots[t]);
    }
  }

  lemma KeepsResume(s: State, a: Action)
    requires Inv(s) && Enabled(s, a) && a.Resume?
    ensures Inv(Apply(s, a))
  {
    var s' := Apply(s, a);
    RecordIsFree(s, a.t);
    assert PhaseOk(s, a.t);
    forall t, l | 0 <= t < |s.slots| && 0 <= l < |s.locks| ensures Agrees(s', t, l) {
      assert Agrees(s, t, l) && Noted(s', t, l) == Noted(s, t, l);
    }
    forall l | 0 <= l < |s.locks| ensures LockOk(s', l) {
      assert LockOk(s, l);
    }
    forall t | 0 <= t < |s.slots| ensures PhaseOk(s', t) && Distinct(s'.locks, s'.slots[t]) {
      assert PhaseOk(s, t) && Distinct(s.locks, s.slots[t]);
    }
  }

  // ----- twenty slots are enough -----

  /** No more different values than the sequence they come from is long. */
  lemma {:induction false} Pigeonhole(xs: seq<int>, from: seq<int>)
    requires forall i, j :: 0 <= i < j < |xs| ==> xs[i] != xs[j]
    requires forall i :: 0 <= i < |xs| ==> xs[i] in from
    ensures |xs| <= |from|
  {
    if xs != [] {
      var k :| 0 <= k < |from| && from[k] == xs[0];
      var rest := from[..k] + from[k + 1..];
      forall i | 0 <= i < |xs[1..]| ensures xs[1..][i] in rest {
        var m :| 0 <= m < |from| && from[m] == xs[i + 1];
        assert rest[if m < k then m else m - 1] == xs[i + 1];
      }
      Pigeonhole(xs[1..], rest);
    }
  }

  /** With sixteen priorities a thread that keeps the order never runs out of its twenty slots. */
  lemma SlotLeft(s: State, t: nat)
    requires Inv(s) && t < |s.slots|
    ensures FreeSlot(s.slots[t]) < MAX_HELD
  {
    var slots := s.slots[t];
    assert |PRIORITIES| == 16;
    if FreeSlot(slots) == MAX_HELD {
      var prios := seq(MAX_HELD, i requires 0 <= i < MAX_HELD => s.locks[slots[i].value].prio);
      forall i | 0 <= i < |prios| ensures prios[i] in PRIORITIES {
        assert LockOk(s, slots[i].value);
      }
      assert Distinct(s.locks, slots);
      Pigeonhole(prios, PRIORITIES);
    }
  }

  lemma KeepsLock(s: State, a: Action)
    requires Inv(s) && Enabled(s, a) && a.Lock?
    ensures Inv(Apply(s, a))
  {
    var s', t0 := Apply(s, a), a.t;
    SlotLeft(s, t0);
    forall t, l | 0 <= t < |s.slots| && 0 <= l < |s.locks| ensures Agrees(s', t, l) {
      assert Agrees(s, t, l) && Noted(s', t, l) == Noted(s, t, l);
    }
    forall l | 0 <= l < |s.locks| ensures LockOk(s', l) {
      assert LockOk(s, l);
    }
    forall t | 0 <= t < |s.slots| ensures PhaseOk(s', t) && Distinct(s'.locks, s'.slots[t]) {
      assert PhaseOk(s, t) && Distinct(s.locks, s.slots[t]);
    }
  }

  lemma KeepsInv(s: State, a: Action)
    requires Inv(s) && Enabled(s, a)
    ensures Inv(Apply(s, a))
  {
    match a {
      case Lock(_, _, _) => KeepsLock(s, a);
      case Record(_) => KeepsRecord(s, a);
      case Unlock(_, _) => KeepsUnlock(s, a);
      case Release(_) => KeepsRelease(s, a);
      case Sleep(_) => KeepsRelease(s, a);
      case Yield(_, _) => KeepsYield(s, a);
      case Resume(_) => KeepsResume(s, a);
      case _ => KeepsAcquire(s, a);
    }
  }

  // ----- whole runs -----

  ghost predicate Unused(s: State) {
    && Shape(s) && !s.fault
    && (forall t :: 0 <= t < |s.slots| ==> s.phases[t] == Running && forall i :: 0 <= i < MAX_HELD ==>
      s.slots[t][i].None?)
    && (forall l :: 0 <= l < |s.locks| ==>
          s.owner[l].None? && !s.locks[l].locked && s.locks[l].thread == 0 && s.locks[l].prio in PRIORITIES)
  }

  ghost function Init(): State -> bool { (s: State) => Unused(s) }

  ghost predicate Step(s: State, s': State) { Shape(s) && exists a :: Enabled(s, a) && s' == Apply(s, a) }

  ghost function Next(): (State, State) -> bool { (s: State, s': State) => Step(s, s') }

  lemma ReachedInv(s: State)
    requires Reachable(Init(), Next(), s)
    ensures Inv(s)
  {
    var inv := (x: State) => Inv(x);
    forall x | Init()(x) ensures inv(x) {
      forall t, l | 0 <= t < |x.slots| && 0 <= l < |x.locks| ensures Agrees(x, t, l) {
        assert !Noted(x, t, l);
      }
    }
    forall x, y | inv(x) && Next()(x, y) ensures inv(y) {
      var a :| Enabled(x, a) && y == Apply(x, a);
      KeepsInv(x, a);
    }
    Always(Init(), Next(), inv, s);
  }

  /** Thread t is blocked on a mutex somebody holds, at first or when coming back from a condition. */
  ghost predicate Stuck(s: State, t: nat)
    requires Shape(s)
  {
    0 < t < |s.phases| && (s.phases[t].Blocked? || s.phases[t].Reacquiring?) && s.owner[s.phases[t].l].Some?
  }

  ghost function Holder(s: State, t: nat): nat
    requires Shape(s) && Stuck(s, t)
  {
    s.owner[s.phases[t].l].value
  }

  ghost function Awaited(s: State, t: nat): int
    requires Shape(s) && Stuck(s, t)
  {
    s.locks[s.phases[t].l].prio
  }

  /** Following blocked threads to the holders they wait for, the awaited priority only ever rises. */
  lemma WaitsClimb(s: State, t: nat)
    requires Inv(s) && Stuck(s, t) && Stuck(s, Holder(s, t))
    ensures Awaited(s, t) < Awaited(s, Holder(s, t))
  {
    var l, o := s.phases[t].l, Holder(s, t);
    assert LockOk(s, l) && Agrees(s, o, l) && Agrees(s, t, l) && PhaseOk(s, o) && PhaseOk(s, t);
    assert Noted(s, o, l);
    var i :| 0 <= i < |s.slots[o]| && s.slots[o][i] == Some(l);
  }

  lemma ClimbEnds(s: State, t: nat) returns (top: nat)
    requires Inv(s) && Stuck(s, t)
    ensures Stuck(s, top) && 0 < Holder(s, top) < |s.phases| && !Stuck(s, Holder(s, top))
    decreases 310 - Awaited(s, t)
  {
    assert LockOk(s, s.phases[t].l);
    if Stuck(s, Holder(s, t)) {
      WaitsClimb(s, t);
      assert LockOk(s, s.phases[Holder(s, t)].l);
      top := ClimbEnds(s, Holder(s, t));
    } else {
      top := t;
    }
  }

  /**
   If every acquisition passes the checks there is no deadlock: whenever a thread is blocked on a mutex,
   some awaited mutex is held by a thread that is not blocked on one. The checker's own sanity checks
   never fail, and the twenty slots never run out.
   */
  lemma NoDeadlock(s: State)
    requires Reachable(Init(), Next(), s)
    ensures Shape(s) && !s.fault
    ensures forall t :: 0 <= t < |s.slots| ==> Distinct(s.locks, s.slots[t]) && FreeSlot(s.slots[t]) < MAX_HELD
    ensures (exists t :: Stuck(s, t)) ==>
      exists t :: Stuck(s, t) && 0 < Holder(s, t) < |s.phases| && !Stuck(s, Holder(s, t))
  {
    ReachedInv(s);
    forall t | 0 <= t < |s.slots| ensures FreeSlot(s.slots[t]) < MAX_HELD {
      SlotLeft(s, t);
    }
    if t :| Stuck(s, t) {
      var top := ClimbEnds(s, t);
    }
  }
}
