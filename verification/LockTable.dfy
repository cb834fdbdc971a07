/** The tables of `locks.c` and the searches over them, proved against the checks of Locks. */
module LockTable {
  import opened Options
  import opened Locks

  /** One user of the thread table; tid 0 marks a free record. */
  datatype ThreadRec = ThreadRec(tid: nat, slots: Slots)

  function NoSlots(): Slots { seq(MAX_HELD, _ => None) }

  function FindThread(threads: seq<ThreadRec>, tid: nat): (k: nat)
    ensures k <= |threads| && (k < |threads| ==> threads[k].tid == tid)
    ensures forall i :: 0 <= i < k ==> threads[i].tid != tid
  {
    if threads == [] || threads[0].tid == tid then 0 else 1 + FindThread(threads[1..], tid)
  }

  /** The locks noted for a thread; none if it has no record. */
  function SlotsOf(threads: seq<ThreadRec>, tid: nat): Slots {
    var k := FindThread(threads, tid);
    if k < |threads| then threads[k].slots else NoSlots()
  }

  function LockIndex(locks: seq<LockRec>, mutex: nat): (k: nat)
    ensures k <= |locks| && (k < |locks| ==> locks[k].mutex == mutex)
    ensures forall i :: 0 <= i < k ==> locks[i].mutex != mutex
  {
    if locks == [] || locks[0].mutex == mutex then 0 else 1 + LockIndex(locks[1..], mutex)
  }

  lemma FindThreadIs(threads: seq<ThreadRec>, tid: nat, k: nat)
    requires UniqueTids(threads) && tid != 0 && k < |threads| && threads[k].tid == tid
    ensures FindThread(threads, tid) == k
  {
  }

  ghost predicate UniqueTids(threads: seq<ThreadRec>) {
    forall i, j :: 0 <= i < j < |threads| && threads[i].tid != 0 ==> threads[i].tid != threads[j].tid
  }

  /** Changing one record changes the notes of its thread only. */
  lemma SlotsAfter(threads: seq<ThreadRec>, k: nat, self: nat, slots: Slots, tid: nat)
    requires UniqueTids(threads) && k < |threads| && self != 0 && tid != 0
    requires threads[k].tid == self || (threads[k].tid == 0 && FindThread(threads, self) == |threads|)
    ensures UniqueTids(threads[k := ThreadRec(self, slots)])
    ensures SlotsOf(threads[k := ThreadRec(self, slots)], tid) == if tid == self then slots else SlotsOf(threads, tid)
  {
    var threads' := threads[k := ThreadRec(self, slots)];
    var j := FindThread(threads, tid);
    if tid == self {
      FindThreadIs(threads', tid, k);
    } else if j < |threads| {
      FindThreadIs(threads', tid, j);
    } else {
      var j' := FindThread(threads', tid);
    }
  }

  /** Freeing the record of a thread leaves it without notes. */
  lemma SlotsFreed(threads: seq<ThreadRec>, k: nat, slots: Slots, tid: nat)
    requires UniqueTids(threads) && k < |threads| && threads[k].tid != 0 && tid != 0
    ensures UniqueTids(threads[k := ThreadRec(0, slots)])
    ensures SlotsOf(threads[k := ThreadRec(0, slots)], tid) == if tid == threads[k].tid then NoSlots()
      else SlotsOf(threads, tid)
  {
    var threads' := threads[k := ThreadRec(0, slots)];
    var j, j' := FindThread(threads, tid), FindThread(threads', tid);
    if tid != threads[k].tid && j < |threads| {
      FindThreadIs(threads', tid, j);
    }
  }

  ghost predicate LocksOk(locks: seq<LockRec>) {
    forall i, j :: 0 <= i < j < |locks| && locks[i].mutex != 0 ==> locks[i].mutex != locks[j].mutex
  }

  /** Noted locks are initialised ones, of different priorities. */
  ghost predicate NotesOk(locks: seq<LockRec>, slots: Slots) {
    && SlotsOk(locks, slots) && Distinct(locks, slots)
    && forall i :: 0 <= i < |slots| && slots[i].Some? ==> locks[slots[i].value].mutex != 0
  }

  lemma AddedNotesOk(locks: seq<LockRec>, slots: Slots, l: nat, idx: nat, self: nat)
    requires NotesOk(locks, slots) && l < |locks| && idx < MAX_HELD && slots[idx].None? && OrderOk(locks, slots, l)
    requires locks[l].mutex != 0
    ensures NotesOk(Taken(locks, l, self), slots[idx := Some(l)])
  {
  }

  lemma OthersNotesOk(locks: seq<LockRec>, threads: seq<ThreadRec>, l: nat, locks': seq<LockRec>)
    requires LocksOk(locks) && l < |locks| == |locks'|
    requires (forall i :: 0 <= i < |locks| ==> locks'[i].mutex == locks[i].mutex && locks'[i].prio == locks[i].prio)
    requires forall t :: 0 <= t < |threads| ==> NotesOk(locks, threads[t].slots)
    ensures LocksOk(locks') && forall t :: 0 <= t < |threads| ==> NotesOk(locks', threads[t].slots)
  {
  }

  /** The mutex is known, the order allows it, and the tables have room. */
  ghost predicate MayLock(locks: seq<LockRec>, threads: seq<ThreadRec>, mutex: nat, self: nat) {
    var l, slots := LockIndex(locks, mutex), SlotsOf(threads, self);
    && l < |locks| && SlotsOk(locks, slots) && OrderOk(locks, slots, l)
    && FreeSlot(slots) < MAX_HELD && (FindThread(threads, self) < |threads| || FindThread(threads, 0) < |threads|)
  }

  /** The mutex is known, thread self has noted it and the bookkeeping agrees. */
  ghost predicate MayUnlock(locks: seq<LockRec>, slots: Slots, mutex: nat, self: nat) {
    var l := LockIndex(locks, mutex);
    l < |locks| && SlotOf(slots, l) < |slots| && locks[l].thread == self && locks[l].locked
  }

  function Unnoted(slots: Slots, l: nat): Slots {
    var k := SlotOf(slots, l);
    if k < |slots| then slots[k := None] else slots
  }

  lemma RemovedNotesOk(locks: seq<LockRec>, slots: Slots, k: nat)
    requires NotesOk(locks, slots) && k < |slots|
    ensures NotesOk(locks, slots[k := None])
  {
  }

  lemma SameSlot(locks: seq<LockRec>, slots: Slots, mutex: nat, i: nat, l: nat)
    requires LocksOk(locks) && NotesOk(locks, slots) && i < |slots| && slots[i].Some? && mutex != 0
    requires locks[slots[i].value].mutex == mutex && l < |locks| && locks[l].mutex == mutex
    ensures slots[i] == Some(l) && SlotOf(slots, l) == i && LockIndex(locks, mutex) == l
  {
  }

  /** Outcome of the checks before blocking on the mutex: where to note it, or the program ends. */
  datatype Verdict = Go(l: nat, t: nat, idx: nat) | Abort

  class Tables {
    const locks: array<LockRec>
    const threads: array<ThreadRec>

    ghost predicate Valid() reads locks, threads {
      && LocksOk(locks[..]) && UniqueTids(threads[..])
      && forall t :: 0 <= t < threads.Length ==> NotesOk(locks[..], threads[t].slots)
    }

    constructor (numLocks: nat, numThreads: nat)
      ensures Valid() && locks.Length == numLocks && threads.Length == numThreads
      ensures forall tid :: tid != 0 ==> SlotsOf(threads[..], tid) == NoSlots()
      ensures fresh(locks) && fresh(threads)
    {
      locks := new LockRec[numLocks](_ => LockRec(0, false, 0, 0));
      threads := new ThreadRec[numThreads](_ => ThreadRec(0, NoSlots()));
    }

    /** The notes of every thread but self are as in the given table. */
    ghost predicate OthersKept(before: seq<ThreadRec>, self: nat) reads threads {
      forall tid {:trigger SlotsOf(before, tid)} :: tid != 0 && tid != self ==>
        SlotsOf(threads[..], tid) == SlotsOf(before, tid)
    }

    method FindLock(mutex: nat) returns (l: nat)
      ensures l == LockIndex(locks[..], mutex)
    {
      l := 0;
      while l < locks.Length && locks[l].mutex != mutex
        invariant l <= locks.Length && forall i :: 0 <= i < l ==> locks[i].mutex != mutex
      {
        l := l + 1;
      }
    }

    /** The record of a thread and, met on the way, the first free one; -1 for none. */
    method FindRecord(self: nat) returns (t: int, first: int)
      requires self != 0
      ensures -1 <= t < threads.Length && -1 <= first < threads.Length
      ensures t == (if FindThread(threads[..], self) < threads.Length then FindThread(threads[..], self) else -1)
      ensures t == -1 ==>
        first == (if FindThread(threads[..], 0) < threads.Length then FindThread(threads[..], 0) else -1)
    {
      t, first := -1, -1;
      var i := 0;
      while i < threads.Length
        invariant i <= threads.Length && t == -1 && -1 <= first < i
        invariant forall k :: 0 <= k < i ==> threads[k].tid != self
        invariant if first == -1 then forall k :: 0 <= k < i ==> threads[k].tid != 0
                  else threads[first].tid == 0 && forall k :: 0 <= k < first ==> threads[k].tid != 0
      {
        if threads[i].tid == self {
          t := i;
          break;
        }
        if first == -1 && threads[i].tid == 0 {
          first := i;
        }
        i := i + 1;
      }
    }

    /** The slot that notes a mutex, -1 for none, and how many slots are in use. */
    method FindSlot(slots: Slots, mutex: nat) returns (idx: int, cnt: nat)
      requires LocksOk(locks[..]) && NotesOk(locks[..], slots) && mutex != 0
      ensures -1 <= idx < MAX_HELD
      ensures if idx == -1 then forall i :: 0 <= i < MAX_HELD && slots[i].Some? ==> locks[slots[i].value].mutex != mutex
              else slots[idx].Some? && locks[slots[idx].value].mutex == mutex
      ensures cnt == 1 && idx != -1 ==> slots[idx := None] == NoSlots()
      ensures cnt != 1 && idx != -1 ==> slots[idx := None] != NoSlots()
    {
      idx, cnt := -1, 0;
      ghost var last, prev := -1, -1;
      var i := 0;
      while i < MAX_HELD
        invariant i <= MAX_HELD && -1 <= idx < i && -1 <= prev <= last < i
        invariant if idx == -1 then forall k :: 0 <= k < i && slots[k].Some? ==> locks[slots[k].value].mutex != mutex
                  else slots[idx].Some? && locks[slots[idx].value].mutex == mutex
        invariant cnt == 0 ==> forall k :: 0 <= k < i ==> slots[k].None?
        invariant cnt == 1 ==> 0 <= last < i && slots[last].Some? && forall k :: 0 <= k < i && k != last ==>
          slots[k].None?
        invariant cnt >= 2 ==> 0 <= prev < last < i && slots[prev].Some? && slots[last].Some?
      {
        if slots[i].Some? {
          cnt := cnt + 1;
          prev, last := last, i;
          if locks[slots[i].value].mutex == mutex {
            idx := i;
          }
        }
        i := i + 1;
      }
      if idx != -1 {
        ghost var rest := slots[idx := None];
        assert cnt >= 2 ==> rest[prev].Some? || rest[last].Some?;
        assert NoSlots()[if prev >= 0 then prev else 0].None? && NoSlots()[if last >= 0 then last else 0].None?;
      }
    }

    /** The order check over the slots of a record. */
    method CheckOrder(slots: Slots, l: nat) returns (ok: bool, idx: nat)
      requires l < locks.Length && SlotsOk(locks[..], slots)
      ensures ok == (OrderOk(locks[..], slots, l) && FreeSlot(slots) < MAX_HELD)
      ensures ok ==> idx == FreeSlot(slots)
    {
      var free := -1;
      var i := 0;
      while i < MAX_HELD
        invariant i <= MAX_HELD && -1 <= free < i
        invariant if free == -1 then forall k :: 0 <= k < i ==> slots[k].Some?
                  else slots[free].None? && forall k :: 0 <= k < free ==> slots[k].Some?
        invariant forall k :: 0 <= k < i && slots[k].Some? ==> locks[slots[k].value].prio < locks[l].prio
      {
        if slots[i].None? {
          if free == -1 {
            free := i;
          }
        } else if locks[slots[i].value].prio >= locks[l].prio || slots[i].value == l {
          return false, 0;
        }
        i := i + 1;
      }
      if free == -1 {
        return false, 0;
      }
      return true, free;
    }

    /** The first lock section of `debug_mutex_lock`. */
    method BeginLock(mutex: nat, self: nat) returns (r: Verdict)
      requires Valid() && mutex != 0 && self != 0
      modifies threads
      ensures Valid() && OthersKept(old(threads[..]), self)
      ensures SlotsOf(threads[..], self) == old(SlotsOf(threads[..], self))
      ensures r.Go? <==> MayLock(locks[..], old(threads[..]), mutex, self)
      ensures r.Go? ==> r.l == LockIndex(locks[..], mutex)
      ensures r.Go? ==>
        r.t < threads.Length && threads[r.t].tid == self && r.idx == FreeSlot(SlotsOf(threads[..], self))
    {
      var l := FindLock(mutex);
      if l == locks.Length {
        return Abort;
      }
      var t, first := FindRecord(self);
      ghost var before := threads[..];
      if t == -1 {
        if first == -1 {
          return Abort;
        }
        threads[first] := ThreadRec(self, NoSlots());
        assert threads[..] == before[first := ThreadRec(self, NoSlots())];
        forall tid | tid != 0 ensures SlotsOf(threads[..], tid) == SlotsOf(before, tid) {
          SlotsAfter(before, first, self, NoSlots(), tid);
        }
        SlotsAfter(before, first, self, NoSlots(), self);
        return Go(l, first, 0);
      }
      assert NotesOk(locks[..], threads[t].slots);
      var ok, idx := CheckOrder(threads[t].slots, l);
      if !ok {
        return Abort;
      }
      return Go(l, t, idx);
    }

    /** The second lock section of `debug_mutex_lock`, once the mutex is acquired. */
    method EndLock(l: nat, t: nat, idx: nat, self: nat) returns (ok: bool)
      requires Valid() && self != 0 && l < locks.Length && locks[l].mutex != 0
      requires t < threads.Length && threads[t].tid == self && idx < MAX_HELD && |threads[t].slots| == MAX_HELD
      requires threads[t].slots[idx].None?
      requires SlotsOk(locks[..], threads[t].slots) && OrderOk(locks[..], threads[t].slots, l)
      modifies locks, threads
      ensures ok == !old(locks[l].locked)
      ensures ok ==> Valid() && locks[..] == Taken(old(locks[..]), l, self) && OthersKept(old(threads[..]), self)
      ensures ok ==> SlotsOf(threads[..], self) == old(threads[t].slots)[idx := Some(l)]
    {
      if locks[l].locked {
        return false;
      }
      ghost var lb, tb := locks[..], threads[..];
      locks[l] := locks[l].(locked := true, thread := self);
      threads[t] := ThreadRec(self, threads[t].slots[idx := Some(l)]);
      FindThreadIs(tb, self, t);
      assert locks[..] == Taken(lb, l, self);
      assert threads[..] == tb[t := ThreadRec(self, tb[t].slots[idx := Some(l)])];
      forall tid | tid != 0
        ensures SlotsOf(threads[..], tid) == if tid == self then tb[t].slots[idx := Some(l)] else SlotsOf(tb, tid) {
        SlotsAfter(tb, t, self, tb[t].slots[idx := Some(l)], tid);
      }
      SlotsAfter(tb, t, self, tb[t].slots[idx := Some(l)], self);
      AddedNotesOk(lb, tb[t].slots, l, idx, self);
      OthersNotesOk(lb, tb, l, Taken(lb, l, self));
      return true;
    }

    /** The lock section of `debug_mutex_unlock`. */
    method Unlock(mutex: nat, self: nat) returns (ok: bool, l: nat)
      requires Valid() && mutex != 0 && self != 0
      modifies locks, threads
      ensures ok <==> MayUnlock(old(locks[..]), old(SlotsOf(threads[..], self)), mutex, self)
      ensures !ok ==> locks[..] == old(locks[..]) && threads[..] == old(threads[..])
      ensures ok ==> l == LockIndex(old(locks[..]), mutex)
      ensures ok ==> Valid() && locks[..] == Dropped(old(locks[..]), l) && OthersKept(old(threads[..]), self)
      ensures ok ==> SlotsOf(threads[..], self) == Unnoted(old(SlotsOf(threads[..], self)), l)
    {
      ghost var lb, tb := locks[..], threads[..];
      var t, _ := FindRecord(self);
      if t == -1 {
        return false, 0;
      }
      assert NotesOk(lb, tb[t].slots);
      var idx, cnt := FindSlot(threads[t].slots, mutex);
      if idx == -1 {
        return false, 0;
      }
      l := threads[t].slots[idx].value;
      SameSlot(lb, tb[t].slots, mutex, idx, l);
      if locks[l].thread != self || !locks[l].locked {
        return false, l;
      }
      locks[l] := locks[l].(locked := false, thread := 0);
      var slots := threads[t].slots[idx := None];
      threads[t] := ThreadRec(if cnt == 1 then 0 else self, slots);
      assert locks[..] == Dropped(lb, l);
      assert threads[..] == tb[t := ThreadRec(if cnt == 1 then 0 else self, slots)];
      assert cnt == 1 ==> slots == NoSlots();
      forall tid | tid != 0 ensures SlotsOf(threads[..], tid) == if tid == self then slots else SlotsOf(tb, tid) {
        if cnt == 1 { SlotsFreed(tb, t, slots, tid); } else { SlotsAfter(tb, t, self, slots, tid); }
      }
      RemovedNotesOk(lb, tb[t].slots, idx);
      OthersNotesOk(lb, threads[..], l, locks[..]);
      if cnt == 1 { SlotsFreed(tb, t, slots, self); } else { SlotsAfter(tb, t, self, slots, self); }
      return true, l;
    }

    /** `debug_mutex_init`: refuses a known mutex, else uses the first free record. */
    method InitLock(mutex: nat, prio: int) returns (ok: bool)
      requires Valid() && mutex != 0
      modifies locks
      ensures Valid()
      ensures ok <==> old(LockIndex(locks[..], mutex)) == locks.Length && old(LockIndex(locks[..], 0)) < locks.Length
      ensures if ok then var k := old(LockIndex(locks[..], 0));
                locks[..] == old(locks[..])[k := LockRec(mutex, false, old(locks[..])[k].thread, prio)]
              else locks[..] == old(locks[..])
    {
      ghost var lb := locks[..];
      var first := -1;
      var i := 0;
      while i < locks.Length
        invariant i <= locks.Length && -1 <= first < i && forall k :: 0 <= k < i ==> locks[k].mutex != mutex
        invariant if first == -1 then forall k :: 0 <= k < i ==> locks[k].mutex != 0
                  else locks[first].mutex == 0 && forall k :: 0 <= k < first ==> locks[k].mutex != 0
      {
        if locks[i].mutex == mutex {
          return false;
        }
        if first == -1 && locks[i].mutex == 0 {
          first := i;
        }
        i := i + 1;
      }
      if first == -1 {
        return false;
      }
      locks[first] := LockRec(mutex, false, locks[first].thread, prio);
      assert locks[..] == lb[first := LockRec(mutex, false, lb[first].thread, prio)];
      forall t | 0 <= t < threads.Length ensures NotesOk(locks[..], threads[t].slots) {
        assert NotesOk(lb, threads[t].slots);
      }
      return true;
    }

    /** The scan of `debug_mutex_cond_wait`: where the mutex is noted and the highest other priority above 0. */
    method HighestOther(slots: Slots, mutex: nat) returns (idx: int, mp: int)
      requires NotesOk(locks[..], slots) && LocksOk(locks[..]) && mutex != 0
      ensures -1 <= idx < MAX_HELD
      ensures if idx == -1 then forall i :: 0 <= i < MAX_HELD && slots[i].Some? ==> locks[slots[i].value].mutex != mutex
              else slots[idx].Some? && locks[slots[idx].value].mutex == mutex
      ensures idx != -1 ==> (mp < locks[slots[idx].value].prio <==> YieldOk(locks[..], slots, slots[idx].value))
    {
      idx, mp := -1, 0;
      ghost var at := -1;
      var i := 0;
      while i < MAX_HELD
        invariant i <= MAX_HELD && -1 <= idx < i && -1 <= at < i && mp >= 0
        invariant if idx == -1 then forall k :: 0 <= k < i && slots[k].Some? ==> locks[slots[k].value].mutex != mutex
                  else slots[idx].Some? && locks[slots[idx].value].mutex == mutex
        invariant forall k :: 0 <= k < i && slots[k].Some? && locks[slots[k].value].mutex != mutex ==>
          locks[slots[k].value].prio <= mp
        invariant if at == -1 then mp == 0
                  else slots[at].Some? && locks[slots[at].value].mutex != mutex && locks[slots[at].value].prio == mp
      {
        if slots[i].Some? {
          if locks[slots[i].value].mutex == mutex {
            idx := i;
          } else if locks[slots[i].value].prio > mp {
            mp, at := locks[slots[i].value].prio, i;
          }
        }
        i := i + 1;
      }
      if idx != -1 {
        forall k | 0 <= k < MAX_HELD && slots[k].Some?
          ensures locks[slots[k].value].mutex == mutex <==> slots[k].value == slots[idx].value {
          if locks[slots[k].value].mutex == mutex { SameSlot(locks[..], slots, mutex, k, slots[idx].value); }
        }
      }
    }

    /** The lock section of `debug_mutex_cond_wait` before waiting. */
    method BeginWait(mutex: nat, self: nat) returns (ok: bool, l: nat)
      requires Valid() && mutex != 0 && self != 0
      modifies locks
      ensures SlotsOk(locks[..], SlotsOf(threads[..], self))
      ensures ok <==> (MayUnlock(old(locks[..]), SlotsOf(threads[..], self), mutex, self)
                       && YieldOk(old(locks[..]), SlotsOf(threads[..], self), LockIndex(old(locks[..]), mutex)))
      ensures !ok ==> locks[..] == old(locks[..])
      ensures ok ==> l == LockIndex(old(locks[..]), mutex) && Valid() && locks[..] == Dropped(old(locks[..]), l)
    {
      ghost var lb := locks[..];
      var t, _ := FindRecord(self);
      if t == -1 {
        return false, 0;
      }
      var slots := threads[t].slots;
      assert NotesOk(lb, slots);
      var idx, mp := HighestOther(slots, mutex);
      if idx == -1 {
        return false, 0;
      }
      l := slots[idx].value;
      SameSlot(lb, slots, mutex, idx, l);
      if locks[l].thread != self || !locks[l].locked || mp >= locks[l].prio {
        return false, l;
      }
      locks[l] := locks[l].(locked := false, thread := 0);
      assert locks[..] == Dropped(lb, l);
      OthersNotesOk(lb, threads[..], l, locks[..]);
      return true, l;
    }

    /** After `pthread_cond_wait` returned with the mutex. */
    method EndWait(l: nat, self: nat) returns (ok: bool)
      requires Valid() && l < locks.Length && self != 0
      modifies locks
      ensures ok == (!old(locks[l].locked) && old(locks[l].thread) == 0)
      ensures locks[..] == if ok then Taken(old(locks[..]), l, self) else old(locks[..])
      ensures Valid()
    {
      ghost var lb := locks[..];
      if locks[l].locked || locks[l].thread != 0 {
        return false;
      }
      locks[l] := locks[l].(locked := true, thread := self);
      assert locks[..] == Taken(lb, l, self);
      OthersNotesOk(lb, threads[..], l, locks[..]);
      return true;
    }
  }
}
