/**
 Where the split counter stops being safe. In `ref_get` the `continue` of the first loop jumps to the
 loop condition, so the reloaded word is incremented without the check that there is room for the tag.
 With 32 readers of one weak reference the tag carries into the next slot address.
 */
module ReferenceOverflow {
  import opened Sums
  import opened Runs
  import opened Reference
  import opened ReferenceSafety

  lemma ReachStep(limit: nat, s: State, t: nat, a: Action)
    requires Reached(limit, s) && Enabled(limit, s, t, a)
    ensures Reached(limit, Apply(s, t, a))
  {
    assert Steps(limit)(s, Apply(s, t, a));
    Extend(Initial, Steps(limit), s, Apply(s, t, a));
  }

  lemma IdleThreadIsNoReader(s: State, t: nat, w: int)
    requires t < |s.pcs| && s.pcs[t].Idle?
    ensures Readers(s, w) < |s.pcs|
  {
    var one := (pc: Pc) => 1;
    SumBelow(s.pcs, t, InGet(w), one);
    CountAll(s.pcs);
  }

  lemma {:induction false} CountAll(pcs: seq<Pc>)
    ensures SumBy(pcs, (pc: Pc) => 1) == |pcs|
  {
    if pcs != [] { CountAll(pcs[1..]); }
  }

  /** 32 threads, one weak reference holding the object at address 32, and n readers that have taken their tags. */
  ghost function Full(n: nat): State
    requires n <= SLOT
  {
    State([SLOT + n], map[SLOT := Obj(SLOT + 2, 1, 0, false)],
          seq(SLOT, i => if i < n then GetCount(0, SLOT) else Idle), {(0, SLOT)}, false)
  }

  lemma SetUp(limit: nat)
    ensures Reached(limit, Full(0))
  {
    var s0 := State([0], map[], seq(SLOT, i => Idle), {}, false);
    Start(Initial, Steps(limit), s0);
    ReachStep(limit, s0, 0, Create(SLOT, 1));
    var s1 := Apply(s0, 0, Create(SLOT, 1));
    ReachStep(limit, s1, 0, CallSet(0, SLOT));
    var s2 := Apply(s1, 0, CallSet(0, SLOT));
    ReachStep(limit, s2, 0, Advance(false));
    assert s2.pcs[0] == SetSwap(0, SLOT);
    assert Apply(s2, 0, Advance(false)) == Full(0) by {
      var s3 := Apply(s2, 0, Advance(false));
      assert s3.pcs == Full(0).pcs;
      assert s3.installed == Full(0).installed;
    }
  }

  lemma {:induction false} TakeTags(limit: nat, n: nat)
    requires SLOT <= limit && n < SLOT
    ensures Reached(limit, Full(n))
  {
    if n == 0 {
      SetUp(limit);
    } else {
      var t := n - 1;
      TakeTags(limit, t);
      var s0 := Full(t);
      IdleThreadIsNoReader(s0, t, 0);
      ReachStep(limit, s0, t, CallGet(0));
      var s1 := Apply(s0, t, CallGet(0));
      ReachStep(limit, s1, t, Advance(false));
      var s2 := Apply(s1, t, Advance(false));
      ReachStep(limit, s2, t, Advance(false));
      assert Apply(s2, t, Advance(false)).pcs == Full(n).pcs;
      assert Apply(s2, t, Advance(false)) == Full(n);
    }
  }

  /** 31 readers hold their tags; the last thread stands at pc, and the word and the counter are as given. */
  ghost function Late(pc: Pc, word: int, count: int): State {
    Full(SLOT - 1).(words := [word], pcs := Full(SLOT - 1).pcs[SLOT - 1 := pc],
                    objs := map[SLOT := Obj(count, 1, 0, false)])
  }

  lemma AdvanceLate(limit: nat, s: State, s': State)
    requires Reached(limit, s) && |s.pcs| == SLOT && !s.pcs[SLOT - 1].Idle?
    requires s' == Step(s, SLOT - 1, false)
    ensures Reached(limit, s')
  {
    ReachStep(limit, s, SLOT - 1, Advance(false));
  }

  lemma CallLate(limit: nat, s: State, s': State)
    requires SLOT <= limit && Reached(limit, s) && |s.pcs| == SLOT && |s.words| == 1 && s.pcs[SLOT - 1].Idle?
    requires s' == Goto(s, SLOT - 1, GetLoad(0))
    ensures Reached(limit, s')
  {
    IdleThreadIsNoReader(s, SLOT - 1, 0);
    ReachStep(limit, s, SLOT - 1, CallGet(0));
  }

  /** The 32nd reader finds the tag full, reloads, and increments the word into the next slot. */
  lemma TagCarries(limit: nat)
    requires SLOT <= limit
    ensures Reached(limit, Late(GetCount(0, SLOT), 2 * SLOT, SLOT + 2))
  {
    TakeTags(limit, SLOT - 1);
    var word, n := 2 * SLOT - 1, SLOT + 2;
    CallLate(limit, Full(SLOT - 1), Late(GetLoad(0), word, n));
    AdvanceLate(limit, Late(GetLoad(0), word, n), Late(GetReload(0), word, n));
    AdvanceLate(limit, Late(GetReload(0), word, n), Late(GetTake(0, word), word, n));
    AdvanceLate(limit, Late(GetTake(0, word), word, n), Late(GetCount(0, SLOT), 2 * SLOT, n));
  }

  /** The 32nd reader leaves with a reference that no counter knows of: its increment is undone. */
  lemma LeavesUncounted(limit: nat)
    requires SLOT <= limit
    ensures Reached(limit, AddHeld(Late(Idle, 2 * SLOT, SLOT + 2), SLOT))
  {
    TagCarries(limit);
    var word, n := 2 * SLOT, SLOT + 2;
    AdvanceLate(limit, Late(GetCount(0, SLOT), word, n), Late(GetRead(0, SLOT), word, n + 1));
    AdvanceLate(limit, Late(GetRead(0, SLOT), word, n + 1), Late(GetUndo(0, SLOT), word, n + 1));
    AdvanceLate(limit, Late(GetUndo(0, SLOT), word, n + 1), AddHeld(Late(Idle, word, n), SLOT));
  }

  /** The same thread reads once more and now touches a counter that is no object's. */
  lemma FaultReachable(limit: nat)
    requires SLOT <= limit
    ensures exists s :: Reached(limit, s) && s.fault
  {
    LeavesUncounted(limit);
    var t, word := SLOT - 1, 2 * SLOT;
    var s := AddHeld(Late(Idle, word, SLOT + 2), SLOT);
    CallLate(limit, s, Goto(s, t, GetLoad(0)));
    AdvanceLate(limit, Goto(s, t, GetLoad(0)), Goto(s, t, GetTake(0, word)));
    var s' := Goto(s.(words := [word + 1]), t, GetCount(0, word));
    AdvanceLate(limit, Goto(s, t, GetTake(0, word)), s');
    AdvanceLate(limit, s', Step(s', t, false));
  }

  /**
   The exact condition: every run is safe if and only if fewer than 32 threads may read one weak
   reference at once.
   */
  lemma SafeIffFewReaders(limit: nat)
    ensures (forall s :: Reached(limit, s) ==> !s.fault) <==> limit < SLOT
  {
    if limit < SLOT {
      forall s | Reached(limit, s) ensures !s.fault { FreedExactlyWhenUnreferenced(limit, s, 0); }
    } else {
      FaultReachable(limit);
    }
  }

  // ---------------------------------------------------------------- layout of `ref`

  /** sizeof( ref ): count, free, 32 bytes of padding, 32 bytes from which the slot is aligned down. */
  const REF_SIZE := 80
  const REF_SLOT_BYTES := 48

  /** The slot lies inside its own object, past the counter, and no tag below 32 leaves it. */
  lemma SlotInsideObject(base: nat, tag: nat)
    requires tag < SLOT
    ensures var slot := Aligned(base + REF_SLOT_BYTES);
      && base + 16 < slot && slot + SLOT <= base + REF_SIZE && IsSlot(slot)
      && Aligned(slot + tag) == slot && Tag(slot + tag) == tag
  {
  }

  /** Objects that do not overlap have different slots, and the address one past a slot is nobody's slot. */
  lemma SlotsApart(a: nat, b: nat)
    requires a + REF_SIZE <= b || b + REF_SIZE <= a
    ensures Aligned(a + REF_SLOT_BYTES) != Aligned(b + REF_SLOT_BYTES)
    ensures Aligned(a + REF_SLOT_BYTES) + SLOT != Aligned(b + REF_SLOT_BYTES)
  {
  }
}
