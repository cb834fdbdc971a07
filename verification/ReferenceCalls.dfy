/**
 What the calls of the split reference counter come to when no other thread interferes: `ref_setref`
 installs, `ref_get` returns the installed object, and the last `ref_put` frees.
 */
module ReferenceCalls {
  import opened Reference
  import opened ReferenceSafety
  import opened Runs
  import opened Sums

  /** Thread t goes on alone until its call returns; the flags say which compare-exchanges fail spuriously. */
  ghost function Alone(s: State, t: nat, flags: seq<bool>): (s': State)
    requires t < |s.pcs|
    ensures |s'.pcs| == |s.pcs|
    decreases |flags|
  {
    if flags == [] || s.pcs[t].Idle? then s else Alone(Step(s, t, flags[0]), t, flags[1..])
  }

  lemma {:induction false} AloneKeeps(limit: nat, s: State, t: nat, flags: seq<bool>)
    requires Inv(limit, s) && limit <= MAX_READERS && t < |s.pcs|
    ensures Inv(limit, Alone(s, t, flags))
    decreases |flags|
  {
    if flags != [] && !s.pcs[t].Idle? {
      KeepsAdvance(limit, s, t, flags[0]);
      AloneKeeps(limit, Step(s, t, flags[0]), t, flags[1..]);
    }
  }

  /** The replaced word was v: its object has lost what the installation stood for. */
  ghost predicate Settled(s: State, s': State, t: nat)
    requires t < |s.pcs| && s.pcs[t].SetSettle? && s.pcs[t].seen / 32 * 32 in s.objs
  {
    var v := s.pcs[t].seen;
    var q := v / 32 * 32;
    && s'.pcs == s.pcs[t := Idle] && s'.words == s.words && s'.objs.Keys == s.objs.Keys
    && s'.objs[q].count == s.objs[q].count - 33 + v % 32 && s'.objs[q].held == s.objs[q].held
    && s'.objs[q].frees == (if s'.objs[q].count == 0 then 1 else 0)
    && forall x :: x in s.objs && x != q ==> s'.objs[x] == s.objs[x]
  }

  /** The last steps of `ref_setref`: the replaced installation is settled, and the object freed if it was the last. */
  lemma Settles(limit: nat, s: State, t: nat, flags: seq<bool>)
    requires Inv(limit, s) && limit <= MAX_READERS && t < |s.pcs| && s.pcs[t].SetSettle? && |flags| >= 2
    ensures s.pcs[t].seen / 32 * 32 in s.objs && Settled(s, Alone(s, t, flags), t)
  {
    var v := s.pcs[t].seen;
    var q := v / 32 * 32;
    assert PcOk(s, s.pcs[t]) && Aligned(v) == q;
    ReferredIsLive(limit, s, t, q);
    KeepsAdvance(limit, s, t, flags[0]);
    var s1 := Step(s, t, flags[0]);
    assert ObjOk(s1, q);
    assert Alone(s1, t, flags[1..]) == Alone(Step(s1, t, flags[1..][0]), t, flags[1..][1..]);
  }

  ghost predicate Exchanged(s: State, s': State, t: nat, w: int, r: int)
    requires t < |s.pcs| && 0 <= w < |s.words| && (r != 0 ==> r in s.objs)
  {
    var v := s.words[w];
    && s'.words == s.words[w := r] && s'.objs.Keys == s.objs.Keys
    && s'.pcs == s.pcs[t := if v == 0 then Idle else SetSettle(v)]
    && (v != 0 ==> v / 32 * 32 in s.objs && v / 32 * 32 != r)
    && (r != 0 ==> s'.objs[r] == s.objs[r].(count := s.objs[r].count + 33, unpublished := false))
    && forall x :: x in s.objs && x != r ==> s'.objs[x] == s.objs[x]
  }

  /** The first steps: the new object is counted, then the words are exchanged. */
  lemma Exchanges(limit: nat, s: State, t: nat, w: int, r: int, spurious: bool)
    requires Inv(limit, s) && limit <= MAX_READERS && Enabled(limit, s, t, CallSet(w, r))
    ensures Inv(limit, Step(Apply(s, t, CallSet(w, r)), t, spurious))
    ensures Exchanged(s, Step(Apply(s, t, CallSet(w, r)), t, spurious), t, w, r)
  {
    var s1 := Apply(s, t, CallSet(w, r));
    KeepsStep(limit, s, t, CallSet(w, r));
    KeepsAdvance(limit, s1, t, spurious);
    assert WordOk(s, w);
    if r != 0 { assert ObjOk(s, r); WeightNonNegative(s, r); }
  }

  ghost predicate Replaced(s: State, s': State, w: int, r: int)
    requires 0 <= w < |s.words| && (r != 0 ==> r in s.objs)
  {
    var v := s.words[w];
    var q := v / 32 * 32;
    && s'.pcs == s.pcs && s'.words == s.words[w := r] && s'.objs.Keys == s.objs.Keys
    && (r != 0 ==> s'.objs[r] == s.objs[r].(count := s.objs[r].count + 33, unpublished := false))
    && (v != 0 ==>
          && q in s.objs && q != r && s'.objs[q].count == s.objs[q].count - 33 + v % 32
          && s'.objs[q].held == s.objs[q].held
          && s'.objs[q].frees == (if s'.objs[q].count == 0 then 1 else 0))
    && forall x :: x in s.objs && x != r && (v == 0 || x != q) ==> s'.objs[x] == s.objs[x]
  }

  /**
   `ref_setref` by a thread that is not disturbed: afterwards the weak reference holds exactly the new
   object, or NULL; the new object counts 33 more; the object it held before has lost its 33, but for
   one per reader that took them over; nothing else changed.
   */
  lemma SetInstalls(limit: nat, s: State, t: nat, w: int, r: int, flags: seq<bool>)
    requires Inv(limit, s) && limit <= MAX_READERS && t < |s.pcs| && s.pcs[t].Idle? && 0 <= w < |s.words|
    requires r != 0 ==> r in s.objs && (s.objs[r].held > 0 || s.objs[r].unpublished) && (w, r) !in s.installed
    requires |flags| >= 3
    ensures Replaced(s, Alone(Apply(s, t, CallSet(w, r)), t, flags), w, r)
  {
    Exchanges(limit, s, t, w, r, flags[0]);
    var s1 := Apply(s, t, CallSet(w, r));
    var s2, v := Step(s1, t, flags[0]), s.words[w];
    AloneStep(s1, t, flags);
    if v != 0 {
      Settles(limit, s2, t, flags[1..]);
      Composed(s, s2, Alone(s1, t, flags), t, w, r);
    } else {
      assert s2.pcs == s.pcs;
    }
  }

  lemma Composed(s: State, s1: State, s': State, t: nat, w: int, r: int)
    requires t < |s.pcs| && s.pcs[t].Idle? && 0 <= w < |s.words| && s.words[w] != 0 && (r != 0 ==> r in s.objs)
    requires Exchanged(s, s1, t, w, r) && Settled(s1, s', t)
    ensures Replaced(s, s', w, r)
  {
    assert s1.pcs[t := Idle] == s.pcs;
  }

  lemma AloneStep(s: State, t: nat, flags: seq<bool>)
    requires t < |s.pcs| && flags != [] && !s.pcs[t].Idle?
    ensures Alone(s, t, flags) == Alone(Step(s, t, flags[0]), t, flags[1..])
  {
  }

  /** And the object it held before was freed exactly if nothing refers to it any more. */
  lemma SetFrees(limit: nat, s: State, t: nat, w: int, r: int, flags: seq<bool>)
    requires Inv(limit, s) && limit <= MAX_READERS && t < |s.pcs| && s.pcs[t].Idle? && 0 <= w < |s.words|
    requires r != 0 ==> r in s.objs && (s.objs[r].held > 0 || s.objs[r].unpublished) && (w, r) !in s.installed
    requires |flags| >= 3 && s.words[w] != 0
    ensures var s', q := Alone(Apply(s, t, CallSet(w, r)), t, flags), s.words[w] / 32 * 32;
      q in s'.objs && (s'.objs[q].frees == 1 <==> !Referenced(s', q))
  {
    SetInstalls(limit, s, t, w, r, flags);
    KeepsStep(limit, s, t, CallSet(w, r));
    AloneKeeps(limit, Apply(s, t, CallSet(w, r)), t, flags);
    FreedIsUnreferenced(limit, Alone(Apply(s, t, CallSet(w, r)), t, flags), s.words[w] / 32 * 32);
  }

  lemma FreedIsUnreferenced(limit: nat, s: State, r: int)
    requires Inv(limit, s) && r in s.objs && (s.objs[r].count == 0 ==> s.objs[r].frees == 1)
    ensures s.objs[r].frees == 1 <==> !Referenced(s, r)
  {
    assert ObjOk(s, r);
    ReferencedIffCounted(limit, s, r);
  }

  // ----- ref_get -----

  /** The second half of `ref_get`: the tag is given back, however often that fails spuriously. */
  lemma {:induction false} ReturnsTag(s: State, t: nat, w: int, r: int, flags: seq<bool>)
    requires t < |s.pcs| && 0 <= w < |s.words| && r in s.objs && s.pcs[t] == GetReturn(w, r, s.words[w])
    requires Aligned(s.words[w]) == r
    ensures var s' := Alone(s, t, flags);
      && (s'.pcs[t].Idle? ==>
            s' == Goto(s.(words := s.words[w := s.words[w] - 1],
                          objs := s.objs[r := s.objs[r].(held := s.objs[r].held + 1)]), t, Idle))
      && (flags != [] && !flags[0] ==> s'.pcs[t].Idle?)
    decreases |flags|
  {
    if flags != [] {
      var s1 := Step(s, t, flags[0]);
      if flags[0] {
        assert s1 == s by { assert s1.pcs == s.pcs; }
        ReturnsTag(s, t, w, r, flags[1..]);
      } else {
        assert s1.pcs[t].Idle?;
      }
    }
  }

  /** What `ref_get` leaves behind: one more reference, owned by the caller. */
  ghost function Taken(s: State, r: int): State
    requires r in s.objs
  {
    s.(objs := s.objs[r := s.objs[r].(count := s.objs[r].count + 1, held := s.objs[r].held + 1)])
  }

  lemma CountsAndReturns(s: State, t: nat, w: int, r: int, flags: seq<bool>)
    requires t < |s.pcs| && 0 <= w < |s.words| && Live(s, r) && s.pcs[t] == GetCount(w, r)
    requires Aligned(s.words[w]) == r
    ensures var s' := Alone(s, t, flags);
      && (s'.pcs[t].Idle? ==> s' == Goto(Taken(s, r).(words := s.words[w := s.words[w] - 1]), t, Idle))
      && (|flags| >= 3 && !flags[2] ==> s'.pcs[t].Idle?)
  {
    if |flags| >= 2 {
      var s1 := Step(s, t, flags[0]);
      var s2 := Step(s1, t, flags[1]);
      assert s2.pcs[t] == GetReturn(w, r, s.words[w]);
      assert Alone(s, t, flags) == Alone(s1, t, flags[1..]) == Alone(s2, t, flags[1..][1..]);
      ReturnsTag(s2, t, w, r, flags[1..][1..]);
      assert s.pcs[t := GetRead(w, r)][t := GetReturn(w, r, s.words[w])][t := Idle] == s.pcs[t := Idle];
    }
  }

  /** The first half: the tag is taken, however often that fails spuriously. */
  lemma {:induction false} TakesTag(s: State, t: nat, w: int, flags: seq<bool>)
    requires t < |s.pcs| && 0 <= w < |s.words| && s.pcs[t] == GetTake(w, s.words[w])
    requires s.words[w] != 0 && Tag(s.words[w]) < 31 && Live(s, Aligned(s.words[w]))
    ensures var s' := Alone(s, t, flags);
      && (s'.pcs[t].Idle? ==> s' == Goto(Taken(s, Aligned(s.words[w])), t, Idle))
      && (|flags| >= 4 && !flags[0] && !flags[3] ==> s'.pcs[t].Idle?)
    decreases |flags|
  {
    if flags != [] {
      var s1, r := Step(s, t, flags[0]), Aligned(s.words[w]);
      if flags[0] {
        assert s1 == s by { assert s1.pcs == s.pcs; }
        TakesTag(s, t, w, flags[1..]);
      } else {
        assert s1 == Goto(s.(words := s.words[w := s.words[w] + 1]), t, GetCount(w, r));
        assert Aligned(s1.words[w]) == r;
        CountsAndReturns(s1, t, w, r, flags[1..]);
        assert s1.words[w := s1.words[w] - 1] == s.words;
        assert s1.pcs[t := Idle] == s.pcs[t := Idle];
      }
    }
  }

  /**
   `ref_get` by a thread that is not disturbed: NULL, with nothing changed, exactly if the weak
   reference holds NULL; else one more reference to the object it holds, now the caller's, and nothing
   else changed. It returns, at the latest when no compare-exchange fails spuriously.
   */
  lemma GetReturnsInstalled(limit: nat, s: State, t: nat, w: int, flags: seq<bool>)
    requires Inv(limit, s) && limit <= MAX_READERS && t < |s.pcs| && s.pcs[t].Idle? && 0 <= w < |s.words|
    requires Readers(s, w) < limit
    ensures var s', v := Alone(Apply(s, t, CallGet(w)), t, flags), s.words[w];
      && (v != 0 ==> Live(s, v / 32 * 32))
      && (s'.pcs[t].Idle? ==> s' == if v == 0 then s else Taken(s, v / 32 * 32))
      && (|flags| >= 5 && !flags[1] && !flags[4] ==> s'.pcs[t].Idle?)
  {
    var s1, v := Apply(s, t, CallGet(w)), s.words[w];
    if v != 0 { LoadsInstalled(limit, s, t, w); }
    if flags != [] {
      AloneStep(s1, t, flags);
      var s2 := Step(s1, t, flags[0]);
      if v == 0 {
        assert s2.pcs == s.pcs;
      } else {
        TakesTag(s2, t, w, flags[1..]);
        assert s2.pcs[t := Idle] == s.pcs;
      }
    }
  }

  lemma LoadsInstalled(limit: nat, s: State, t: nat, w: int)
    requires Inv(limit, s) && limit <= MAX_READERS && Enabled(limit, s, t, CallGet(w)) && s.words[w] != 0
    ensures var v := s.words[w];
      && Tag(v) < 31 && Aligned(v) == v / 32 * 32 && Live(s, Aligned(v))
      && Step(Apply(s, t, CallGet(w)), t, false) == Goto(s, t, GetTake(w, v))
  {
    var s1, v := Apply(s, t, CallGet(w)), s.words[w];
    KeepsStep(limit, s, t, CallGet(w));
    RoomForTag(limit, s1, t, w);
    assert WordOk(s, w) && Points(s.words, w, Aligned(v)) && ObjOk(s, Aligned(v));
    WeightNonNegative(s, Aligned(v));
    assert s.pcs[t := GetLoad(w)][t := GetTake(w, v)] == s.pcs[t := GetTake(w, v)];
  }

  /** The object a thread inside `ref_get` has taken a tag of, or is about to undo one of. */
  function HoldsOn(pc: Pc): int {
    if pc.GetCount? || pc.GetRead? || pc.GetReturn? || pc.GetUndo? then pc.r else 0
  }

  ghost predicate SameHeld(s: State, s': State) {
    s'.objs.Keys == s.objs.Keys && forall x :: x in s.objs ==> s'.objs[x].held == s.objs[x].held
  }

  /**
   `ref_get` whatever other threads do: each step of it makes no reference and stays in the call, or
   returns NULL because it just saw NULL, or returns a new reference to the very object whose tag it took.
   */
  lemma GetStepReturns(limit: nat, s: State, t: nat, w: int, spurious: bool)
    requires Inv(limit, s) && limit <= MAX_READERS && t < |s.pcs| && InGet(w)(s.pcs[t]) == 1
    ensures var s', r := Step(s, t, spurious), HoldsOn(s.pcs[t]);
      if !s'.pcs[t].Idle? then
        && SameHeld(s, s') && InGet(w)(s'.pcs[t]) == 1
        && (r != 0 ==> HoldsOn(s'.pcs[t]) == r)
        && (r == 0 && HoldsOn(s'.pcs[t]) != 0 ==> Points(s.words, w, HoldsOn(s'.pcs[t])))
      else if r == 0 then SameHeld(s, s') && 0 <= w < |s.words| && s.words[w] == 0
      else && r in s.objs && s'.objs.Keys == s.objs.Keys && s'.objs[r].held == s.objs[r].held + 1
           && forall x :: x in s.objs && x != r ==> s'.objs[x].held == s.objs[x].held
  {
    assert PcOk(s, s.pcs[t]);
    var r := HoldsOn(s.pcs[t]);
    Accounts(limit, s);
    if r != 0 {
      if s.pcs[t].GetUndo? {
        assert Weight(s.words, r, s.pcs[t]) == 2;
      } else {
        assert HasTag(w, r, s.pcs[t]);
      }
      ReferredIsLive(limit, s, t, r);
    } else {
      LoopTopOk(limit, s, t);
    }
  }

  // ----- ref_inc and ref_put -----

  /** Thread t gives back n references to r. */
  ghost function Puts(s: State, t: nat, r: int, n: nat): (s': State)
    requires t < |s.pcs|
    ensures |s'.pcs| == |s.pcs|
  {
    if n == 0 then s else Apply(Puts(s, t, r, n - 1), t, Put(r))
  }

  lemma PutCounts(limit: nat, s: State, t: nat, r: int)
    requires Inv(limit, s) && limit <= MAX_READERS && Enabled(limit, s, t, Put(r))
    ensures var s' := Apply(s, t, Put(r));
      && Inv(limit, s') && s'.words == s.words && s'.pcs == s.pcs && s'.objs.Keys == s.objs.Keys
      && s.objs[r].frees == 0 && s'.objs[r].held == s.objs[r].held - 1
      && s'.objs[r].frees == (if s'.objs[r].count == 0 then 1 else 0)
      && forall x :: x in s.objs && x != r ==> s'.objs[x] == s.objs[x]
  {
    KeepsStep(limit, s, t, Put(r));
    assert ObjOk(s, r);
    WeightNonNegative(s, r);
  }

  lemma {:induction false} PutsCount(limit: nat, s: State, t: nat, r: int, n: nat)
    requires Inv(limit, s) && limit <= MAX_READERS && t < |s.pcs| && r in s.objs && n <= s.objs[r].held
    ensures var s' := Puts(s, t, r, n);
      && Inv(limit, s') && s'.words == s.words && s'.pcs == s.pcs && s'.objs.Keys == s.objs.Keys
      && s'.objs[r].held == s.objs[r].held - n
      && (n > 0 ==> s'.objs[r].frees == if s'.objs[r].count == 0 then 1 else 0)
      && forall x :: x in s.objs && x != r ==> s'.objs[x] == s.objs[x]
  {
    if n > 0 {
      PutsCount(limit, s, t, r, n - 1);
      PutCounts(limit, Puts(s, t, r, n - 1), t, r);
    }
  }

  /**
   The owners of an object give all their references back: it is freed by the last of them, not before,
   exactly if no weak reference and no thread refers to it.
   */
  lemma LastPutFrees(limit: nat, s: State, t: nat, r: int)
    requires Inv(limit, s) && limit <= MAX_READERS && t < |s.pcs| && r in s.objs && s.objs[r].held > 0
    ensures var n := s.objs[r].held;
      && Puts(s, t, r, n).objs.Keys == Puts(s, t, r, n - 1).objs.Keys == s.objs.Keys
      && Puts(s, t, r, n - 1).objs[r].frees == 0
      && (Puts(s, t, r, n).objs[r].frees == 1 <==>
            (forall w :: !Points(s.words, w, r)) && NoThread(s, r))
  {
    var n := s.objs[r].held;
    PutsCount(limit, s, t, r, n);
    PutsCount(limit, s, t, r, n - 1);
    var last, s' := Puts(s, t, r, n - 1), Puts(s, t, r, n);
    PutCounts(limit, last, t, r);
    FreedIsUnreferenced(limit, s', r);
    OnlyOwners(limit, s', r);
  }

  ghost predicate NoThread(s: State, r: int) {
    forall u :: 0 <= u < |s.pcs| ==> Weight(s.words, r, s.pcs[u]) == 0
  }

  lemma OnlyOwners(limit: nat, s: State, r: int)
    requires Inv(limit, s) && r in s.objs && s.objs[r].held == 0
    ensures Referenced(s, r) <==> !((forall w :: !Points(s.words, w, r)) && NoThread(s, r))
  {
    WeightNonNegative(s, r);
    assert forall u :: 0 <= u < |s.pcs| ==> PcOk(s, s.pcs[u]);
    if (forall w :: !Points(s.words, w, r)) && NoThread(s, r) {
      forall u, w | 0 <= u < |s.pcs| ensures !HasTag(w, r, s.pcs[u]) {
        assert Weight(s.words, r, s.pcs[u]) == 0 && !Points(s.words, w, r);
      }
    } else if !NoThread(s, r) {
      var u :| 0 <= u < |s.pcs| && Weight(s.words, r, s.pcs[u]) != 0;
    }
  }

  /** After a `ref_inc` it takes one `ref_put` more. */
  lemma IncIsOneMore(limit: nat, s: State, t: nat, r: int)
    requires Inv(limit, s) && limit <= MAX_READERS && t < |s.pcs| && r in s.objs && s.objs[r].held > 0
    ensures var s' := Apply(s, t, Inc(r));
      && Inv(limit, s') && s'.words == s.words && s'.pcs == s.pcs && r in s'.objs
      && s'.objs[r].held == s.objs[r].held + 1 && Puts(s', t, r, s.objs[r].held).objs.Keys == s.objs.Keys
      && Puts(s', t, r, s.objs[r].held).objs[r].frees == 0
  {
    KeepsStep(limit, s, t, Inc(r));
    assert ObjOk(s, r);
    WeightNonNegative(s, r);
    var s' := Apply(s, t, Inc(r));
    assert s'.objs.Keys == s.objs.Keys;
    LastPutFrees(limit, s', t, r);
  }

  /**
   An object made with c references lasts until the last of them is given back; made with none, it can
   be discarded.
   */
  lemma CreatedWith(limit: nat, s: State, t: nat, r: int, c: nat)
    requires Inv(limit, s) && limit <= MAX_READERS && t < |s.pcs| && IsSlot(r) && !Live(s, r)
    ensures var s' := Apply(s, t, Create(r, c));
      && s'.words == s.words && s'.pcs == s.pcs && Live(s', r)
      && (c > 0 ==> r in Puts(s', t, r, c).objs && Puts(s', t, r, c).objs[r].frees == 1
                    && r in Puts(s', t, r, c - 1).objs && Puts(s', t, r, c - 1).objs[r].frees == 0)
      && (c == 0 ==> Enabled(limit, s', t, Discard(r)) && Apply(s', t, Discard(r)).objs[r].frees == 1)
  {
    var s' := Apply(s, t, Create(r, c));
    assert r in s.objs ==> ObjOk(s, r);
    KeepsStep(limit, s, t, Create(r, c));
    NobodyRefers(limit, s, r);
    if c > 0 { LastPutFrees(limit, s', t, r); }
  }
}
