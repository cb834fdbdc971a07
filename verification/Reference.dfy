/**
 The split reference counter of `reference.h`, `reference.c` and `reftypes.h`, one transition per
 atomic operation, for any number of threads, weak references and counted objects.

 An object is named by the address of its 32-byte slot. A weak reference is a machine word: 0, or a
 slot address plus a tag that counts the readers in the middle of `ref_get`.
 */
module Reference {
  import opened Sums
  import opened Runs

  /** sizeof( union _aligned_ref_ ) */
  const SLOT := 32

  function Aligned(p: int): int { p - p % SLOT }

  function Tag(p: int): int { p % SLOT }

  predicate IsSlot(a: int) { a > 0 && a % SLOT == 0 }

  /**
   `count` is the shared counter. `held` is the number of references the program owns and will give
   back with `ref_put`; `frees` counts the calls of the free function in this object's life. `unpublished`
   marks an object made with count 0 that was never published.
   */
  datatype Obj = Obj(count: int, held: nat, frees: nat, unpublished: bool)

  /** Where a thread stands inside `ref_get` or `ref_setref`; each constructor is the next atomic operation. */
  datatype Pc =
    | Idle
    | GetLoad(w: int)                     // load *weakref, then the checks at the top of the loop
    | GetReload(w: int)                   // load *weakref before `continue`, which skips those checks
    | GetTake(w: int, seen: int)           // compare-exchange seen -> seen + 1
    | GetCount(w: int, r: int)            // ++ref->count
    | GetRead(w: int, r: int)             // load *weakref
    | GetReturn(w: int, r: int, cur: int) // compare-exchange cur -> cur - 1
    | GetUndo(w: int, r: int)             // ref->count--
    | SetSwap(w: int, next: int)          // exchange
    | SetSettle(seen: int)                 // old_ref->count += tag - 32
    | SetPut(r: int)                      // ref_put( old_ref )

  datatype State = State(
    words: seq<int>,
    objs: map<int, Obj>,
    pcs: seq<Pc>,
    installed: set<(int, int)>, // (weakref, object) pairs installed in the object's life
    fault: bool)                // a counter was touched outside the life of its object

  datatype Action =
    | CallGet(w: int)
    | CallSet(w: int, r: int) // r == 0 installs NULL
    | Advance(spurious: bool) // a weak compare-exchange may fail spuriously
    | Create(r: int, count: nat)
    | Discard(r: int)         // free() of an object that was never published
    | Inc(r: int)
    | Put(r: int)

  predicate Live(s: State, r: int) { r in s.objs && s.objs[r].frees == 0 }

  function AddCount(s: State, r: int, d: int): State {
    if Live(s, r) then s.(objs := s.objs[r := s.objs[r].(count := s.objs[r].count + d)])
    else s.(fault := true)
  }

  function AddHeld(s: State, r: int): State {
    if r in s.objs then s.(objs := s.objs[r := s.objs[r].(held := s.objs[r].held + 1)]) else s
  }

  /** `ref_put`: decrement, and run the free function when the counter reaches 0. */
  function PutCount(s: State, r: int): State {
    if !Live(s, r) then s.(fault := true) else
    var o := s.objs[r];
    s.(objs := s.objs[r := o.(count := o.count - 1, frees := if o.count == 1 then o.frees + 1 else o.frees)])
  }

  function Goto(s: State, t: nat, pc: Pc): State
    requires t < |s.pcs|
  {
    s.(pcs := s.pcs[t := pc])
  }

  /** The checks at the top of the first loop of `ref_get`, on a loaded word. */
  function LoopTop(w: int, seen: int): Pc {
    if seen == 0 then Idle
    else if Aligned(seen) != Aligned(seen + 1) then GetReload(w)
    else GetTake(w, seen)
  }

  /** The check at the top of the second loop of `ref_get`, on a loaded word. */
  function ReturnTop(w: int, r: int, cur: int): Pc {
    if Aligned(cur) != r then GetUndo(w, r) else GetReturn(w, r, cur)
  }

  ghost function InGet(w: int): Pc -> int {
    (pc: Pc) =>
      if (pc.GetLoad? || pc.GetReload? || pc.GetTake? || pc.GetCount? || pc.GetRead? || pc.GetReturn? || pc.GetUndo?)
         && pc.w == w then 1 else 0
  }

  /** The number of threads inside `ref_get` on weak reference w. */
  ghost function Readers(s: State, w: int): int { SumBy(s.pcs, InGet(w)) }

  /**
   What the callers guarantee. At most `limit` threads are inside `ref_get` on one weak reference;
   whoever installs, increments or drops an object owns a reference (or has just made the object);
   an object is never installed again in a weak reference that already held it.
   */
  ghost predicate Enabled(limit: nat, s: State, t: nat, a: Action) {
    t < |s.pcs| &&
    match a
    case CallGet(w) => s.pcs[t].Idle? && 0 <= w < |s.words| && Readers(s, w) < limit
    case CallSet(w, r) =>
      && s.pcs[t].Idle? && 0 <= w < |s.words|
      && (r != 0 ==> r in s.objs && (s.objs[r].held > 0 || s.objs[r].unpublished) && (w, r) !in s.installed)
    case Advance(_) => !s.pcs[t].Idle?
    case Create(r, _) => IsSlot(r) && (r in s.objs ==> s.objs[r].frees > 0)
    case Discard(r) => r in s.objs && s.objs[r].unpublished
    case Inc(r) => r in s.objs && s.objs[r].held > 0
    case Put(r) => r in s.objs && s.objs[r].held > 0
  }

  ghost function Step(s: State, t: nat, spurious: bool): State
    requires t < |s.pcs|
  {
    match s.pcs[t]
    case Idle => s
    case GetLoad(w) => if 0 <= w < |s.words| then Goto(s, t, LoopTop(w, s.words[w])) else s
    case GetReload(w) => if 0 <= w < |s.words| then Goto(s, t, GetTake(w, s.words[w])) else s
    case GetTake(w, seen) =>
      if !(0 <= w < |s.words|) then s
      else if !spurious && s.words[w] == seen
      then Goto(s.(words := s.words[w := seen + 1]), t, GetCount(w, Aligned(seen)))
      else Goto(s, t, LoopTop(w, s.words[w]))
    case GetCount(w, r) => Goto(AddCount(s, r, 1), t, GetRead(w, r))
    case GetRead(w, r) => if 0 <= w < |s.words| then Goto(s, t, ReturnTop(w, r, s.words[w])) else s
    case GetReturn(w, r, cur) =>
      if !(0 <= w < |s.words|) then s
      else if !spurious && s.words[w] == cur
      then Goto(AddHeld(s, r).(words := s.words[w := cur - 1]), t, Idle)
      else Goto(s, t, ReturnTop(w, r, s.words[w]))
    case GetUndo(w, r) => Goto(AddHeld(AddCount(s, r, -1), r), t, Idle)
    case SetSwap(w, next) =>
      if !(0 <= w < |s.words|) then s
      else Goto(s.(words := s.words[w := next]), t, if s.words[w] == 0 then Idle else SetSettle(s.words[w]))
    case SetSettle(seen) => Goto(AddCount(s, Aligned(seen), Tag(seen) - SLOT), t, SetPut(Aligned(seen)))
    case SetPut(r) => Goto(PutCount(s, r), t, Idle)
  }

  ghost function Apply(s: State, t: nat, a: Action): State
    requires t < |s.pcs|
  {
    match a
    case CallGet(w) => Goto(s, t, GetLoad(w))
    case CallSet(w, r) =>
      if r == 0 || r !in s.objs then Goto(s, t, SetSwap(w, 0)) else
      var s1 := AddCount(s, r, SLOT + 1);
      Goto(s1.(objs := s1.objs[r := s1.objs[r].(unpublished := false)], installed := s.installed + {(w, r)}), t,
        SetSwap(w, r))
    case Advance(spurious) => Step(s, t, spurious)
    case Create(r, c) =>
      s.(objs := s.objs[r := Obj(c, c, 0, c == 0)], installed := set p | p in s.installed && p.1 != r)
    case Discard(r) =>
      if r !in s.objs then s else
      s.(objs := s.objs[r := s.objs[r].(frees := s.objs[r].frees + 1, unpublished := false)])
    case Inc(r) => AddHeld(AddCount(s, r, 1), r)
    case Put(r) =>
      var s1 := PutCount(s, r);
      if r !in s1.objs || s1.objs[r].held == 0 then s1 else
      s1.(objs := s1.objs[r := s1.objs[r].(held := s1.objs[r].held - 1)])
  }

  ghost predicate Initial(s: State) {
    && (forall w :: 0 <= w < |s.words| ==> s.words[w] == 0)
    && (forall t :: 0 <= t < |s.pcs| ==> s.pcs[t].Idle?)
    && s.objs == map[] && s.installed == {} && !s.fault
  }

  /** One step of any thread. */
  ghost predicate Next(limit: nat, s: State, s': State) {
    exists t, a :: Enabled(limit, s, t, a) && s' == Apply(s, t, a)
  }

  ghost function Steps(limit: nat): (State, State) -> bool {
    (s: State, s': State) => Next(limit, s, s')
  }

  ghost predicate Reached(limit: nat, s: State) { Reachable(Initial, Steps(limit), s) }

  // ---------------------------------------------------------------- accounting

  predicate Points(words: seq<int>, w: int, r: int) {
    0 <= w < |words| && words[w] != 0 && Aligned(words[w]) == r
  }

  ghost function WordWeight(r: int): int -> int {
    (word: int) => if word != 0 && Aligned(word) == r then SLOT + 1 else 0
  }

  function Weight(words: seq<int>, r: int, pc: Pc): int {
    match pc
    case GetCount(w, q) => if q != r then 0 else if Points(words, w, r) then 0 else 1
    case GetRead(w, q) => if q != r then 0 else if Points(words, w, r) then 1 else 2
    case GetReturn(w, q, _) => if q != r then 0 else if Points(words, w, r) then 1 else 2
    case GetUndo(_, q) => if q == r then 2 else 0
    case SetSwap(_, next) => if next == r then SLOT + 1 else 0
    case SetSettle(seen) => if Aligned(seen) == r then SLOT + 1 - Tag(seen) else 0
    case SetPut(q) => if q == r then 1 else 0
    case _ => 0
  }

  ghost function ThreadWeight(words: seq<int>, r: int): Pc -> int {
    (pc: Pc) => Weight(words, r, pc)
  }

  predicate HasTag(w: int, r: int, pc: Pc) {
    (pc.GetCount? || pc.GetRead? || pc.GetReturn?) && pc.w == w && pc.r == r
  }

  ghost function TagWeight(w: int, r: int): Pc -> int {
    (pc: Pc) => if HasTag(w, r, pc) then 1 else 0
  }

  /** Everything the counter of r stands for. */
  ghost function References(s: State, r: int): int
    requires r in s.objs
  {
    s.objs[r].held + SumBy(s.words, WordWeight(r)) + SumBy(s.pcs, ThreadWeight(s.words, r))
  } 
}
