/**
 Safety of the split reference counter: the invariant that every step keeps while at most 31 threads
 are inside `ref_get` on one weak reference, and what it says about whole runs.
 */
module ReferenceSafety {
  import opened Sums
  import opened Runs
  import opened Reference

  /** The largest number of simultaneous readers of one weak reference the code supports. */
  const MAX_READERS := SLOT - 1

  ghost predicate WordOk(s: State, w: int)
    requires 0 <= w < |s.words|
  {
    s.words[w] != 0 ==>
      && s.words[w] > 0
      && Aligned(s.words[w]) in s.objs
      && (w, Aligned(s.words[w])) in s.installed
      && Tag(s.words[w]) == SumBy(s.pcs, TagWeight(w, Aligned(s.words[w])))
  }

  predicate OnInstalled(s: State, w: int, r: int) {
    0 <= w < |s.words| && r in s.objs && (w, r) in s.installed
  }

  predicate PcOk(s: State, pc: Pc) {
    match pc
    case Idle => true
    case GetLoad(w) => 0 <= w < |s.words|
    case GetReload(w) => false
    case GetTake(w, seen) => 0 <= w < |s.words| && seen != 0 && Tag(seen) < MAX_READERS
    case GetCount(w, r) => OnInstalled(s, w, r)
    case GetRead(w, r) => OnInstalled(s, w, r)
    case GetReturn(w, r, cur) => OnInstalled(s, w, r) && Aligned(cur) == r
    case GetUndo(w, r) => OnInstalled(s, w, r) && !Points(s.words, w, r)
    case SetSwap(w, next) =>
      0 <= w < |s.words| && (next != 0 ==> OnInstalled(s, w, next) && !Points(s.words, w, next))
    case SetSettle(seen) => seen > 0 && Aligned(seen) in s.objs
    case SetPut(r) => r in s.objs
  }

  /** q works on the installation that p is about to make. */
  predicate Conflict(p: Pc, q: Pc) {
    p.SetSwap? && p.next != 0 &&
    (HasTag(p.w, p.next, q) || (q.GetUndo? && q.w == p.w && q.r == p.next)
     || (q.SetSwap? && q.w == p.w && q.next == p.next))
  }

  ghost predicate ObjOk(s: State, r: int)
    requires r in s.objs
  {
    var o := s.objs[r];
    && IsSlot(r)
    && (o.frees == 0 ==> o.count == References(s, r))
    && (o.frees == 0 ==> (o.unpublished <==> o.count == 0))
    && (o.frees > 0 ==> o.frees == 1 && !o.unpublished && References(s, r) == 0)
  }

  ghost predicate Inv(limit: nat, s: State) {
    && !s.fault
    && (forall w :: 0 <= w < |s.words| ==> WordOk(s, w))
    && (forall t :: 0 <= t < |s.pcs| ==> PcOk(s, s.pcs[t]))
    && (forall t, u :: 0 <= t < |s.pcs| && 0 <= u < |s.pcs| && t != u ==> !Conflict(s.pcs[t], s.pcs[u]))
    && (forall r :: r in s.objs ==> ObjOk(s, r))
    && (forall w :: Readers(s, w) <= limit)
  }

  // ---------------------------------------------------------------- how the sums move

  /** Exchanging a word makes every reader that holds one of its tags weigh one more: exactly the captured tag. */
  lemma SwapWord(limit: nat, s: State, t: nat, r: int)
    requires Inv(limit, s) && t < |s.pcs| && s.pcs[t].SetSwap? && r in s.objs
    ensures var w, v := s.pcs[t].w, s.pcs[t].next;
      && SumBy(s.words[w := v], WordWeight(r))
           == SumBy(s.words, WordWeight(r)) - WordWeight(r)(s.words[w]) + WordWeight(r)(v)
      && SumBy(s.pcs, ThreadWeight(s.words[w := v], r))
           == SumBy(s.pcs, ThreadWeight(s.words, r)) + (if Points(s.words, w, r) then Tag(s.words[w]) else 0)
  {
    var w, v := s.pcs[t].w, s.pcs[t].next;
    assert PcOk(s, s.pcs[t]);
    SumUpdate(s.words, w, v, WordWeight(r));
    var words' := s.words[w := v];
    forall u | 0 <= u < |s.pcs|
      ensures Weight(words', r, s.pcs[u])
           == Weight(s.words, r, s.pcs[u]) + (if Points(s.words, w, r) && HasTag(w, r, s.pcs[u]) then 1 else 0)
    {
      assert u != t ==> !Conflict(s.pcs[t], s.pcs[u]);
      assert ObjOk(s, r);
    }
    if Points(s.words, w, r) {
      SumPlus(s.pcs, ThreadWeight(s.words, r), TagWeight(w, r), ThreadWeight(words', r));
      assert WordOk(s, w);
    } else {
      SumEqual(s.pcs, ThreadWeight(s.words, r), ThreadWeight(words', r));
    }
  }

  lemma WeightNonNegative(s: State, r: int)
    requires forall t :: 0 <= t < |s.pcs| ==> PcOk(s, s.pcs[t])
    ensures SumBy(s.pcs, ThreadWeight(s.words, r)) >= 0
    ensures forall t :: 0 <= t < |s.pcs| ==> Weight(s.words, r, s.pcs[t]) <= SumBy(s.pcs, ThreadWeight(s.words, r))
    ensures SumBy(s.words, WordWeight(r)) >= 0
    ensures forall w :: Points(s.words, w, r) ==> SLOT + 1 <= SumBy(s.words, WordWeight(r))
  {
    SumNonNegative(s.pcs, ThreadWeight(s.words, r));
    forall t | 0 <= t < |s.pcs|
      ensures Weight(s.words, r, s.pcs[t]) <= SumBy(s.pcs, ThreadWeight(s.words, r))
    { SumAtLeast(s.pcs, t, ThreadWeight(s.words, r)); }
    SumNonNegative(s.words, WordWeight(r));
    forall w | Points(s.words, w, r) ensures SLOT + 1 <= SumBy(s.words, WordWeight(r)) {
      SumAtLeast(s.words, w, WordWeight(r));
    }
  }

  /** A thread that has yet to take its tag leaves room for it. */
  lemma RoomForTag(limit: nat, s: State, t: nat, w: int)
    requires Inv(limit, s) && limit <= MAX_READERS && t < |s.pcs|
    requires 0 <= w < |s.words| && s.words[w] != 0
    requires (s.pcs[t].GetLoad? || s.pcs[t].GetTake?) && s.pcs[t].w == w
    ensures Tag(s.words[w]) < MAX_READERS
  {
    assert WordOk(s, w) && Readers(s, w) <= limit;
    SumBelow(s.pcs, t, TagWeight(w, Aligned(s.words[w])), InGet(w));
  }

  /** Objects that a thread or a word refers to are alive. */
  lemma ReferredIsLive(limit: nat, s: State, t: nat, r: int)
    requires Inv(limit, s) && t < |s.pcs| && r in s.objs
    requires Weight(s.words, r, s.pcs[t]) > 0 || exists w :: HasTag(w, r, s.pcs[t])
    ensures Live(s, r)
  {
    WeightNonNegative(s, r);
    assert ObjOk(s, r);
    if Weight(s.words, r, s.pcs[t]) == 0 {
      assert Points(s.words, s.pcs[t].w, r);
    }
  }

  // ---------------------------------------------------------------- every step keeps the invariant

  /** The account of one object moves from o to o' while the weight of the acting thread moves by d. */
  predicate Balanced(o: Obj, o': Obj, d: int) {
    var before := if o.frees == 0 then o.count else 0;
    var after := before + d + o'.held - o.held;
    if o'.frees == 0 then o'.count == after && (o'.unpublished <==> o'.count == 0)
    else o'.frees == 1 && !o'.unpublished && after == 0
  }

  /** s' differs from s in the position of thread t, in tags and in balanced accounts only. */
  ghost predicate Moves(s: State, s': State, t: nat, pc: Pc) {
    && t < |s.pcs| && s'.pcs == s.pcs[t := pc] && s'.objs.Keys == s.objs.Keys
    && s'.installed == s.installed && !s'.fault
    && |s'.words| == |s.words|
    && (forall w :: 0 <= w < |s.words| ==>
          if s.words[w] == 0 then s'.words[w] == 0
          else && s'.words[w] > 0 && Aligned(s'.words[w]) == Aligned(s.words[w])
               && s'.words[w] - s.words[w] == TagWeight(w, Aligned(s.words[w]))(pc)
                                              - TagWeight(w, Aligned(s.words[w]))(s.pcs[t]))
    && (forall r :: r in s.objs ==>
          Balanced(s.objs[r], s'.objs[r], Weight(s.words, r, pc) - Weight(s.words, r, s.pcs[t])))
    && PcOk(s', pc)
    && (pc.SetSwap? ==> pc.next == 0)
    && (forall w, r :: HasTag(w, r, pc) || pc == GetUndo(w, r) ==>
          Points(s.words, w, r) || HasTag(w, r, s.pcs[t]))
    && (forall w :: InGet(w)(pc) <= InGet(w)(s.pcs[t]))
  }

  lemma KeepsMove(limit: nat, s: State, s': State, t: nat, pc: Pc)
    requires Inv(limit, s) && Moves(s, s', t, pc)
    ensures Inv(limit, s')
  {
    forall w, r ensures Points(s'.words, w, r) == Points(s.words, w, r) {}
    forall w | 0 <= w < |s.words| ensures WordOk(s', w) {
      assert WordOk(s, w);
      SumUpdate(s.pcs, t, pc, TagWeight(w, Aligned(s.words[w])));
    }
    forall u | 0 <= u < |s.pcs| ensures PcOk(s', s'.pcs[u]) { assert PcOk(s, s.pcs[u]); }
    forall u, v | 0 <= u < |s.pcs| && 0 <= v < |s.pcs| && u != v ensures !Conflict(s'.pcs[u], s'.pcs[v]) {
      assert !Conflict(s.pcs[u], s.pcs[v]);
      assert PcOk(s, s.pcs[u]);
    }
    forall r | r in s'.objs ensures ObjOk(s', r) {
      assert ObjOk(s, r);
      SameWeights(s, s', r);
      SumUpdate(s.pcs, t, pc, ThreadWeight(s.words, r));
      SumEqual(s'.pcs, ThreadWeight(s.words, r), ThreadWeight(s'.words, r));
    }
    forall w ensures Readers(s', w) <= limit {
      assert Readers(s, w) <= limit;
      SumUpdate(s.pcs, t, pc, InGet(w));
    }
  }

  /** Changing only tags moves no weight. */
  lemma SameWeights(s: State, s': State, r: int)
    requires |s'.words| == |s.words|
    requires forall w :: 0 <= w < |s.words| ==>
      (s'.words[w] == 0 <==> s.words[w] == 0) && Aligned(s'.words[w]) == Aligned(s.words[w])
    ensures SumBy(s'.words, WordWeight(r)) == SumBy(s.words, WordWeight(r))
    ensures forall pc :: Weight(s'.words, r, pc) == Weight(s.words, r, pc)
  {
    SameWordSum(s.words, s'.words, r);
  }

  lemma {:induction false} SameWordSum(ws: seq<int>, ws': seq<int>, r: int)
    requires |ws'| == |ws|
    requires forall w :: 0 <= w < |ws| ==> (ws'[w] == 0 <==> ws[w] == 0) && Aligned(ws'[w]) == Aligned(ws[w])
    ensures SumBy(ws', WordWeight(r)) == SumBy(ws, WordWeight(r))
  {
    if ws != [] { SameWordSum(ws[1..], ws'[1..], r); }
  }

  /** The loop never sees a full tag, so it never reaches the unchecked reload. */
  lemma LoopTopOk(limit: nat, s: State, t: nat)
    requires Inv(limit, s) && limit <= MAX_READERS && t < |s.pcs|
    requires s.pcs[t].GetLoad? || s.pcs[t].GetTake?
    ensures 0 <= s.pcs[t].w < |s.words|
    ensures var w := s.pcs[t].w;
      && (LoopTop(w, s.words[w]) == Idle || LoopTop(w, s.words[w]) == GetTake(w, s.words[w]))
      && PcOk(s, LoopTop(w, s.words[w]))
  {
    var w := s.pcs[t].w;
    assert PcOk(s, s.pcs[t]);
    if s.words[w] != 0 { RoomForTag(limit, s, t, w); }
  }

  lemma KeepsLoad(limit: nat, s: State, t: nat)
    requires Inv(limit, s) && limit <= MAX_READERS && t < |s.pcs|
    requires s.pcs[t].GetLoad? || s.pcs[t].GetTake?
    ensures var w := s.pcs[t].w; 0 <= w < |s.words| && Inv(limit, Goto(s, t, LoopTop(w, s.words[w])))
  {
    LoopTopOk(limit, s, t);
    Accounts(limit, s);
    var pc := LoopTop(s.pcs[t].w, s.words[s.pcs[t].w]);
    KeepsMove(limit, s, Goto(s, t, pc), t, pc);
  }

  /** The invariant's view of the words and of the accounts, without the sums. */
  lemma Accounts(limit: nat, s: State)
    requires Inv(limit, s)
    ensures forall w :: 0 <= w < |s.words| && s.words[w] != 0 ==>
      s.words[w] > 0 && Aligned(s.words[w]) in s.objs && (w, Aligned(s.words[w])) in s.installed
    ensures forall r :: r in s.objs ==> IsSlot(r) && Balanced(s.objs[r], s.objs[r], 0)
  {
    forall w | 0 <= w < |s.words| && s.words[w] != 0
      ensures s.words[w] > 0 && Aligned(s.words[w]) in s.objs && (w, Aligned(s.words[w])) in s.installed
    { assert WordOk(s, w); }
    forall r | r in s.objs ensures IsSlot(r) && Balanced(s.objs[r], s.objs[r], 0) { assert ObjOk(s, r); }
  }

  lemma KeepsTake(limit: nat, s: State, t: nat)
    requires Inv(limit, s) && limit <= MAX_READERS && t < |s.pcs|
    requires s.pcs[t].GetTake?
    requires 0 <= s.pcs[t].w < |s.words| && s.words[s.pcs[t].w] == s.pcs[t].seen
    ensures Inv(limit, Step(s, t, false))
  {
    var w, seen := s.pcs[t].w, s.pcs[t].seen;
    assert PcOk(s, s.pcs[t]);
    Accounts(limit, s);
    KeepsMove(limit, s, Step(s, t, false), t, GetCount(w, Aligned(seen)));
  }

  lemma KeepsCount(limit: nat, s: State, t: nat)
    requires Inv(limit, s) && t < |s.pcs| && s.pcs[t].GetCount?
    ensures Inv(limit, Step(s, t, false))
  {
    var w, r := s.pcs[t].w, s.pcs[t].r;
    assert PcOk(s, s.pcs[t]);
    assert HasTag(w, r, s.pcs[t]);
    ReferredIsLive(limit, s, t, r);
    WeightNonNegative(s, r);
    assert ObjOk(s, r);
    Accounts(limit, s);
    KeepsMove(limit, s, Step(s, t, false), t, GetRead(w, r));
  }

  lemma KeepsRead(limit: nat, s: State, t: nat)
    requires Inv(limit, s) && t < |s.pcs| && (s.pcs[t].GetRead? || s.pcs[t].GetReturn?)
    ensures var w, r := s.pcs[t].w, s.pcs[t].r;
      0 <= w < |s.words| && Inv(limit, Goto(s, t, ReturnTop(w, r, s.words[w])))
  {
    var w, r := s.pcs[t].w, s.pcs[t].r;
    assert PcOk(s, s.pcs[t]);
    Accounts(limit, s);
    KeepsMove(limit, s, Goto(s, t, ReturnTop(w, r, s.words[w])), t, ReturnTop(w, r, s.words[w]));
  }

  /** A reader about to give its tag back to the installation it took it from. */
  lemma ReturnFacts(limit: nat, s: State, t: nat)
    requires Inv(limit, s) && t < |s.pcs| && s.pcs[t].GetReturn?
    requires 0 <= s.pcs[t].w < |s.words| && s.words[s.pcs[t].w] == s.pcs[t].cur
    ensures PcOk(s, s.pcs[t]) && IsSlot(s.pcs[t].r) && Points(s.words, s.pcs[t].w, s.pcs[t].r)
    ensures s.pcs[t].cur > 0 && Tag(s.pcs[t].cur) > 0
    ensures Live(s, s.pcs[t].r)
  {
    var w, r := s.pcs[t].w, s.pcs[t].r;
    assert PcOk(s, s.pcs[t]) && ObjOk(s, r) && WordOk(s, w);
    SumAtLeast(s.pcs, t, TagWeight(w, r));
    ReferredIsLive(limit, s, t, r);
  }

  lemma KeepsReturn(limit: nat, s: State, t: nat)
    requires Inv(limit, s) && t < |s.pcs| && s.pcs[t].GetReturn?
    requires 0 <= s.pcs[t].w < |s.words| && s.words[s.pcs[t].w] == s.pcs[t].cur
    ensures Inv(limit, Step(s, t, false))
  {
    ReturnFacts(limit, s, t);
    Accounts(limit, s);
    var s' := Step(s, t, false);
    assert s' == Goto(AddHeld(s, s.pcs[t].r).(words := s.words[s.pcs[t].w := s.pcs[t].cur - 1]), t, Idle);
    KeepsMove(limit, s, s', t, Idle);
  }

  lemma KeepsUndo(limit: nat, s: State, t: nat)
    requires Inv(limit, s) && t < |s.pcs| && s.pcs[t].GetUndo?
    ensures Inv(limit, Step(s, t, false))
  {
    var w, r := s.pcs[t].w, s.pcs[t].r;
    assert PcOk(s, s.pcs[t]) && ObjOk(s, r);
    Accounts(limit, s);
    ReferredIsLive(limit, s, t, r);
    WeightNonNegative(s, r);
    KeepsMove(limit, s, Step(s, t, false), t, Idle);
  }

  lemma KeepsSettle(limit: nat, s: State, t: nat)
    requires Inv(limit, s) && t < |s.pcs| && s.pcs[t].SetSettle?
    ensures Inv(limit, Step(s, t, false))
  {
    var r := Aligned(s.pcs[t].seen);
    assert PcOk(s, s.pcs[t]) && ObjOk(s, r);
    Accounts(limit, s);
    ReferredIsLive(limit, s, t, r);
    WeightNonNegative(s, r);
    KeepsMove(limit, s, Step(s, t, false), t, SetPut(r));
  }

  lemma KeepsSetPut(limit: nat, s: State, t: nat)
    requires Inv(limit, s) && t < |s.pcs| && s.pcs[t].SetPut?
    ensures Inv(limit, Step(s, t, false))
  {
    var r := s.pcs[t].r;
    assert PcOk(s, s.pcs[t]) && ObjOk(s, r);
    Accounts(limit, s);
    ReferredIsLive(limit, s, t, r);
    WeightNonNegative(s, r);
    KeepsMove(limit, s, Step(s, t, false), t, Idle);
  }

  lemma KeepsOwners(limit: nat, s: State, t: nat, a: Action)
    requires Inv(limit, s) && Enabled(limit, s, t, a) && (a.Inc? || a.Put? || a.Discard?)
    ensures Inv(limit, Apply(s, t, a))
  {
    assert PcOk(s, s.pcs[t]) && ObjOk(s, a.r);
    Accounts(limit, s);
    WeightNonNegative(s, a.r);
    var s' := Apply(s, t, a);
    assert s'.pcs == s.pcs[t := s.pcs[t]];
    forall r | r in s.objs ensures ObjOk(s', r) { assert ObjOk(s, r); }
    forall w | 0 <= w < |s.words| ensures WordOk(s', w) { assert WordOk(s, w); }
    forall u | 0 <= u < |s.pcs| ensures PcOk(s', s'.pcs[u]) { assert PcOk(s, s.pcs[u]); }
    forall w ensures Readers(s', w) <= limit { assert Readers(s, w) <= limit; }
  }

  lemma KeepsSwap(limit: nat, s: State, t: nat)
    requires Inv(limit, s) && t < |s.pcs| && s.pcs[t].SetSwap?
    ensures Inv(limit, Step(s, t, false))
  {
    var s' := Step(s, t, false);
    assert PcOk(s, s.pcs[t]) && WordOk(s, s.pcs[t].w);
    forall q | 0 <= q < |s.words| ensures WordOk(s', q) { SwapKeepsWord(limit, s, t, q); }
    SwapKeepsThreads(limit, s, t);
    forall q | q in s.objs ensures ObjOk(s', q) {
      assert ObjOk(s, q);
      SwapWord(limit, s, t, q);
      SumUpdate(s.pcs, t, s'.pcs[t], ThreadWeight(s'.words, q));
    }
    forall q ensures Readers(s', q) <= limit {
      assert Readers(s, q) <= limit;
      SumUpdate(s.pcs, t, s'.pcs[t], InGet(q));
    }
  }

  lemma SwapKeepsWord(limit: nat, s: State, t: nat, q: nat)
    requires Inv(limit, s) && t < |s.pcs| && s.pcs[t].SetSwap? && q < |s.words|
    ensures |Step(s, t, false).words| == |s.words| && WordOk(Step(s, t, false), q)
  {
    var w, next := s.pcs[t].w, s.pcs[t].next;
    var s' := Step(s, t, false);
    assert PcOk(s, s.pcs[t]) && WordOk(s, w) && WordOk(s, q);
    SumUpdate(s.pcs, t, s'.pcs[t], TagWeight(q, Aligned(s'.words[q])));
    if q == w && next != 0 {
      assert ObjOk(s, next);
      NoReaderYet(limit, s, t);
    }
  }

  lemma SwapKeepsThreads(limit: nat, s: State, t: nat)
    requires Inv(limit, s) && t < |s.pcs| && s.pcs[t].SetSwap?
    ensures var s' := Step(s, t, false); forall u :: 0 <= u < |s'.pcs| ==> PcOk(s', s'.pcs[u])
  {
    var w, s' := s.pcs[t].w, Step(s, t, false);
    assert PcOk(s, s.pcs[t]) && WordOk(s, w);
    forall u | 0 <= u < |s.pcs| ensures PcOk(s', s'.pcs[u]) {
      assert PcOk(s, s.pcs[u]);
      assert u != t ==> !Conflict(s.pcs[t], s.pcs[u]) && !Conflict(s.pcs[u], s.pcs[t]);
      if u != t && s.pcs[u].SetSwap? && s.pcs[u].next != 0 && s.pcs[u].w == w { assert ObjOk(s, s.pcs[u].next); }
    }
  }

  /** Nobody holds a tag of an installation that is still to be made. */
  lemma NoReaderYet(limit: nat, s: State, t: nat)
    requires Inv(limit, s) && t < |s.pcs| && s.pcs[t].SetSwap? && s.pcs[t].next != 0
    ensures SumBy(s.pcs, TagWeight(s.pcs[t].w, s.pcs[t].next)) == 0
  {
    forall u | 0 <= u < |s.pcs| ensures TagWeight(s.pcs[t].w, s.pcs[t].next)(s.pcs[u]) == 0 {
      assert u != t ==> !Conflict(s.pcs[t], s.pcs[u]);
    }
    SumZero(s.pcs, TagWeight(s.pcs[t].w, s.pcs[t].next));
  }

  lemma KeepsCallGet(limit: nat, s: State, t: nat, a: Action)
    requires Inv(limit, s) && Enabled(limit, s, t, a) && a.CallGet?
    ensures Inv(limit, Apply(s, t, a))
  {
    var s' := Apply(s, t, a);
    var pc := GetLoad(a.w);
    forall r | r in s'.objs ensures ObjOk(s', r) {
      assert ObjOk(s, r);
      SumUpdate(s.pcs, t, pc, ThreadWeight(s.words, r));
    }
    forall w | 0 <= w < |s.words| ensures WordOk(s', w) {
      assert WordOk(s, w);
      SumUpdate(s.pcs, t, pc, TagWeight(w, Aligned(s.words[w])));
    }
    forall u | 0 <= u < |s.pcs| ensures PcOk(s', s'.pcs[u]) { assert PcOk(s, s.pcs[u]); }
    forall w ensures Readers(s', w) <= limit {
      assert Readers(s, w) <= limit;
      SumUpdate(s.pcs, t, pc, InGet(w));
    }
  }

  lemma KeepsCallSet(limit: nat, s: State, t: nat, a: Action)
    requires Inv(limit, s) && Enabled(limit, s, t, a) && a.CallSet?
    ensures Inv(limit, Apply(s, t, a))
  {
    var s' := Apply(s, t, a);
    var pc := SetSwap(a.w, a.r);
    if a.r != 0 { InstallBalance(limit, s, t, a, a.r); }
    forall r | r in s'.objs ensures ObjOk(s', r) { InstallBalance(limit, s, t, a, r); }
    forall w | 0 <= w < |s.words| ensures WordOk(s', w) {
      assert WordOk(s, w);
      SumUpdate(s.pcs, t, pc, TagWeight(w, Aligned(s.words[w])));
    }
    InstallThreads(limit, s, t, a);
    forall w ensures Readers(s', w) <= limit {
      assert Readers(s, w) <= limit;
      SumUpdate(s.pcs, t, pc, InGet(w));
    }
  }

  lemma InstallThreads(limit: nat, s: State, t: nat, a: Action)
    requires Inv(limit, s) && Enabled(limit, s, t, a) && a.CallSet?
    ensures var s' := Apply(s, t, a);
      && s'.pcs == s.pcs[t := SetSwap(a.w, a.r)] && s'.words == s.words
      && (forall u :: 0 <= u < |s'.pcs| ==> PcOk(s', s'.pcs[u]))
      && (forall u, v :: 0 <= u < |s'.pcs| && 0 <= v < |s'.pcs| && u != v ==> !Conflict(s'.pcs[u], s'.pcs[v]))
  {
    var s' := Apply(s, t, a);
    if a.r != 0 { assert ObjOk(s, a.r) && WordOk(s, a.w); }
    forall u | 0 <= u < |s.pcs| ensures PcOk(s', s'.pcs[u]) { assert PcOk(s, s.pcs[u]); }
    forall u, v | 0 <= u < |s.pcs| && 0 <= v < |s.pcs| && u != v ensures !Conflict(s'.pcs[u], s'.pcs[v]) {
      assert !Conflict(s.pcs[u], s.pcs[v]);
      if a.r != 0 && u == t { NewInstallation(limit, s, a, v); }
      if a.r != 0 && v == t { NewInstallation(limit, s, a, u); }
    }
  }

  /** No thread works on a pair that was never installed. */
  lemma NewInstallation(limit: nat, s: State, a: Action, u: nat)
    requires Inv(limit, s) && a.CallSet? && (a.w, a.r) !in s.installed && u < |s.pcs|
    ensures !Conflict(SetSwap(a.w, a.r), s.pcs[u]) && !Conflict(s.pcs[u], SetSwap(a.w, a.r))
  {
  }

  lemma InstallBalance(limit: nat, s: State, t: nat, a: Action, r: int)
    requires Inv(limit, s) && Enabled(limit, s, t, a) && a.CallSet? && r in s.objs
    ensures r in Apply(s, t, a).objs && ObjOk(Apply(s, t, a), r) && !Apply(s, t, a).fault
  {
    assert ObjOk(s, r);
    assert a.r != 0 ==> ObjOk(s, a.r);
    WeightNonNegative(s, r);
    if a.r != 0 { WeightNonNegative(s, a.r); }
    SumUpdate(s.pcs, t, SetSwap(a.w, a.r), ThreadWeight(s.words, r));
  }

  lemma KeepsCreate(limit: nat, s: State, t: nat, a: Action)
    requires Inv(limit, s) && Enabled(limit, s, t, a) && a.Create?
    ensures Inv(limit, Apply(s, t, a))
  {
    var s' := Apply(s, t, a);
    NobodyRefers(limit, s, a.r);
    forall r | r in s'.objs ensures ObjOk(s', r) { if r != a.r { assert ObjOk(s, r); } }
    forall w | 0 <= w < |s.words| ensures WordOk(s', w) {
      assert WordOk(s, w);
      assert !Points(s.words, w, a.r);
    }
    forall u | 0 <= u < |s.pcs| ensures PcOk(s', s'.pcs[u]) {
      var pc := s.pcs[u];
      assert PcOk(s, pc);
      assert Weight(s.words, a.r, pc) == 0;
      assert forall w :: !HasTag(w, a.r, pc);
    }
    forall w ensures Readers(s', w) <= limit { assert Readers(s, w) <= limit; }
  }

  /** Before its creation, and after it was freed, no word and no thread refers to an object. */
  lemma NobodyRefers(limit: nat, s: State, r: int)
    requires Inv(limit, s) && IsSlot(r) && !Live(s, r)
    ensures forall w :: !Points(s.words, w, r)
    ensures forall t, w :: 0 <= t < |s.pcs| ==> !HasTag(w, r, s.pcs[t])
    ensures forall t :: 0 <= t < |s.pcs| ==> Weight(s.words, r, s.pcs[t]) == 0
    ensures SumBy(s.words, WordWeight(r)) == 0 && SumBy(s.pcs, ThreadWeight(s.words, r)) == 0
  {
    WeightNonNegative(s, r);
    assert r in s.objs ==> ObjOk(s, r);
    Accounts(limit, s);
    assert forall t :: 0 <= t < |s.pcs| ==> PcOk(s, s.pcs[t]);
    forall t, w | 0 <= t < |s.pcs| ensures !HasTag(w, r, s.pcs[t]) {
      if r in s.objs && HasTag(w, r, s.pcs[t]) { ReferredIsLive(limit, s, t, r); }
    }
    if r !in s.objs {
      forall w | 0 <= w < |s.words| ensures WordWeight(r)(s.words[w]) == 0 { assert !Points(s.words, w, r); }
      SumZero(s.words, WordWeight(r));
      SumZero(s.pcs, ThreadWeight(s.words, r));
    }
  }

  lemma KeepsAdvance(limit: nat, s: State, t: nat, spurious: bool)
    requires Inv(limit, s) && limit <= MAX_READERS && t < |s.pcs|
    ensures Inv(limit, Step(s, t, spurious))
  {
    var pc := s.pcs[t];
    assert PcOk(s, pc);
    match pc {
      case Idle =>
      case GetLoad(_) => KeepsLoad(limit, s, t);
      case GetTake(w, seen) =>
        if !spurious && s.words[w] == seen { KeepsTake(limit, s, t); } else { KeepsLoad(limit, s, t); }
      case GetCount(_, _) => KeepsCount(limit, s, t);
      case GetRead(_, _) => KeepsRead(limit, s, t);
      case GetReturn(w, _, cur) =>
        if !spurious && s.words[w] == cur { KeepsReturn(limit, s, t); } else { KeepsRead(limit, s, t); }
      case GetUndo(_, _) => KeepsUndo(limit, s, t);
      case SetSwap(_, _) => KeepsSwap(limit, s, t);
      case SetSettle(_) => KeepsSettle(limit, s, t);
      case SetPut(_) => KeepsSetPut(limit, s, t);
    }
  }

  lemma KeepsStep(limit: nat, s: State, t: nat, a: Action)
    requires Inv(limit, s) && limit <= MAX_READERS && Enabled(limit, s, t, a)
    ensures Inv(limit, Apply(s, t, a))
  {
    match a {
      case CallGet(_) => KeepsCallGet(limit, s, t, a);
      case CallSet(_, _) => KeepsCallSet(limit, s, t, a);
      case Advance(spurious) => KeepsAdvance(limit, s, t, spurious);
      case Create(_, _) => KeepsCreate(limit, s, t, a);
      case _ => KeepsOwners(limit, s, t, a);
    }
  }

  lemma InitialInv(limit: nat, s: State)
    requires Initial(s)
    ensures Inv(limit, s)
  {
    forall w ensures Readers(s, w) <= limit { SumZero(s.pcs, InGet(w)); }
  }

  lemma ReachedInv(limit: nat, s: State)
    requires limit <= MAX_READERS && Reached(limit, s)
    ensures Inv(limit, s)
  {
    var inv := (a: State) => Inv(limit, a);
    forall a | Initial(a) ensures inv(a) { InitialInv(limit, a); }
    forall a, b | inv(a) && Steps(limit)(a, b) ensures inv(b) {
      var t, act :| Enabled(limit, a, t, act) && b == Apply(a, t, act);
      KeepsStep(limit, a, t, act);
    }
    Always(Initial, Steps(limit), inv, s);
  }

  // ---------------------------------------------------------------- what every run guarantees

  /** Somebody can still reach r: an owner, a word, a reader inside `ref_get`, or a writer inside `ref_setref`. */
  ghost predicate Referenced(s: State, r: int)
    requires r in s.objs
  {
    || s.objs[r].held > 0
    || (exists w :: Points(s.words, w, r))
    || (exists t, w :: 0 <= t < |s.pcs| && HasTag(w, r, s.pcs[t]))
    || (exists t :: 0 <= t < |s.pcs| && Weight(s.words, r, s.pcs[t]) > 0)
  }

  lemma ReferencedIffCounted(limit: nat, s: State, r: int)
    requires Inv(limit, s) && r in s.objs
    ensures Referenced(s, r) <==> References(s, r) > 0
    ensures References(s, r) >= 0
  {
    WeightNonNegative(s, r);
    assert ObjOk(s, r);
    if !Referenced(s, r) {
      forall w | 0 <= w < |s.words| ensures WordWeight(r)(s.words[w]) == 0 { assert !Points(s.words, w, r); }
      SumZero(s.words, WordWeight(r));
      forall t | 0 <= t < |s.pcs| ensures ThreadWeight(s.words, r)(s.pcs[t]) == 0 { assert PcOk(s, s.pcs[t]); }
      SumZero(s.pcs, ThreadWeight(s.words, r));
    } else if t, w :| 0 <= t < |s.pcs| && HasTag(w, r, s.pcs[t]) {
      assert PcOk(s, s.pcs[t]);
      assert Points(s.words, w, r) || Weight(s.words, r, s.pcs[t]) > 0;
    }
  }

  /**
   In every reachable state: no counter was touched outside its object's life; the free function has
   run at most once, and it has run exactly when nobody can reach the object any more (objects that
   were made with count 0 and not yet published aside).
   */
  lemma FreedExactlyWhenUnreferenced(limit: nat, s: State, r: int)
    requires limit <= MAX_READERS && Reached(limit, s)
    ensures !s.fault
    ensures r in s.objs ==>
      && s.objs[r].frees <= 1
      && (s.objs[r].frees == 1 || s.objs[r].unpublished <==> !Referenced(s, r))
  {
    ReachedInv(limit, s);
    if r in s.objs {
      assert ObjOk(s, r);
      ReferencedIffCounted(limit, s, r);
    }
  }

  /** The exact account: of a live counter, and of the tag of an installed weak reference. */
  lemma ExactAccounts(limit: nat, s: State)
    requires limit <= MAX_READERS && Reached(limit, s)
    ensures forall r :: Live(s, r) ==> s.objs[r].count == References(s, r)
    ensures forall w :: 0 <= w < |s.words| && s.words[w] != 0 ==>
      && Live(s, Aligned(s.words[w]))
      && Tag(s.words[w]) == SumBy(s.pcs, TagWeight(w, Aligned(s.words[w])))
  {
    ReachedInv(limit, s);
    forall r | Live(s, r) ensures s.objs[r].count == References(s, r) { assert ObjOk(s, r); }
    forall w | 0 <= w < |s.words| && s.words[w] != 0
      ensures Live(s, Aligned(s.words[w])) && Tag(s.words[w]) == SumBy(s.pcs, TagWeight(w, Aligned(s.words[w])))
    {
      assert WordOk(s, w);
      var r := Aligned(s.words[w]);
      assert ObjOk(s, r) && Points(s.words, w, r);
      WeightNonNegative(s, r);
    }
  }
}
