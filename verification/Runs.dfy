/** Finite runs of a transition system and the induction principle over them. */
module Runs {

  ghost predicate IsRun<S(!new)>(init: S -> bool, next: (S, S) -> bool, ss: seq<S>) {
    && |ss| > 0 && init(ss[0])
    && forall i :: 0 <= i < |ss| - 1 ==> next(ss[i], ss[i + 1])
  }

  /** s is the last state of some run. */
  ghost predicate Reachable<S(!new)>(init: S -> bool, next: (S, S) -> bool, s: S) {
    exists ss :: IsRun(init, next, ss) && ss[|ss| - 1] == s
  }

  lemma Start<S(!new)>(init: S -> bool, next: (S, S) -> bool, s: S)
    requires init(s)
    ensures Reachable(init, next, s)
  {
    assert IsRun(init, next, [s]) && [s][|[s]| - 1] == s;
  }

  lemma Extend<S(!new)>(init: S -> bool, next: (S, S) -> bool, s: S, s': S)
    requires Reachable(init, next, s) && next(s, s')
    ensures Reachable(init, next, s')
  {
    var ss :| IsRun(init, next, ss) && ss[|ss| - 1] == s;
    var ss' := ss + [s'];
    assert IsRun(init, next, ss') && ss'[|ss'| - 1] == s';
  }

  /** What holds at the start and is kept by every step holds in every reachable state. */
  lemma Always<S(!new)>(init: S -> bool, next: (S, S) -> bool, inv: S -> bool, s: S)
    requires Reachable(init, next, s)
    requires forall a :: init(a) ==> inv(a)
    requires forall a, b :: inv(a) && next(a, b) ==> inv(b)
    ensures inv(s)
  {
    var ss :| IsRun(init, next, ss) && ss[|ss| - 1] == s;
    AlwaysAt(init, next, inv, ss, |ss| - 1);
  }

  lemma {:induction false} AlwaysAt<S(!new)>(init: S -> bool, next: (S, S) -> bool, inv: S -> bool, ss: seq<S>, i: nat)
    requires IsRun(init, next, ss) && i < |ss|
    requires forall a :: init(a) ==> inv(a)
    requires forall a, b :: inv(a) && next(a, b) ==> inv(b)
    ensures inv(ss[i])
  {
    if i > 0 {
      AlwaysAt(init, next, inv, ss, i - 1);
      assert next(ss[i - 1], ss[i - 1 + 1]);
    }
  }

  /** A run with the actions between its states. */
  ghost predicate IsTrace<S(!new), A(!new)>(init: S -> bool, step: (S, A, S) -> bool, ss: seq<S>, acts: seq<A>) {
    && |ss| == |acts| + 1 && init(ss[0])
    && forall i :: 0 <= i < |acts| ==> step(ss[i], acts[i], ss[i + 1])
  }

  /** Every step keeps `inv`, and breaks `good` exactly if it is a bad one. */
  ghost predicate Breaks<S(!new), A(!new)>(step: (S, A, S) -> bool, inv: S -> bool, good: S -> bool,
      bad: (S, A) -> bool) {
    forall s, a, s' :: inv(s) && step(s, a, s') ==> inv(s') && (good(s) ==> (good(s') <==> !bad(s, a)))
  }

  lemma {:induction false} TraceInv<S(!new), A(!new)>(init: S -> bool, step: (S, A, S) -> bool, inv: S -> bool,
      good: S -> bool, bad: (S, A) -> bool, ss: seq<S>, acts: seq<A>, i: nat)
    requires IsTrace(init, step, ss, acts) && i < |ss| && (forall s :: init(s) ==> inv(s) && good(s))
    requires Breaks(step, inv, good, bad)
    ensures inv(ss[i])
    ensures (forall j :: 0 <= j < i ==> !bad(ss[j], acts[j])) ==> good(ss[i])
  {
    if i > 0 {
      TraceInv(init, step, inv, good, bad, ss, acts, i - 1);
      assert step(ss[i - 1], acts[i - 1], ss[i - 1 + 1]);
      assert bad(ss[i - 1], acts[i - 1]) || !bad(ss[i - 1], acts[i - 1]);
    }
  }

  /** Then a run is good throughout if and only if it takes no bad step. */
  lemma GoodExactlyIf<S(!new), A(!new)>(init: S -> bool, step: (S, A, S) -> bool, inv: S -> bool,
      good: S -> bool, bad: (S, A) -> bool, ss: seq<S>, acts: seq<A>)
    requires IsTrace(init, step, ss, acts) && (forall s :: init(s) ==> inv(s) && good(s))
    requires Breaks(step, inv, good, bad)
    ensures (forall i :: 0 <= i < |ss| ==> good(ss[i])) <==> (forall i :: 0 <= i < |acts| ==> !bad(ss[i], acts[i]))
  {
    forall i | 0 <= i < |ss|
      ensures inv(ss[i])
      ensures (forall j :: 0 <= j < i ==> !bad(ss[j], acts[j])) ==> good(ss[i]) {
      TraceInv(init, step, inv, good, bad, ss, acts, i);
    }
    if forall i :: 0 <= i < |ss| ==> good(ss[i]) {
      forall i | 0 <= i < |acts| ensures !bad(ss[i], acts[i]) {
        assert step(ss[i], acts[i], ss[i + 1]) && good(ss[i]) && good(ss[i + 1]);
      }
    }
  }

  // ----- given actions, one after the other -----

  ghost predicate Path<S(!new), A(!new)>(step: (S, A, S) -> bool, s: S, acts: seq<A>, s': S)
    decreases |acts|
  {
    if acts == [] then s' == s else exists s1 :: step(s, acts[0], s1) && Path(step, s1, acts[1..], s')
  }

  /** The actions can be taken one after the other from s, and lead to s'. */
  ghost predicate Leads<S(!new), A(!new)>(step: (S, A, S) -> bool, s: S, acts: seq<A>, s': S) {
    Path(step, s, acts, s')
  }

  lemma LeadsNowhere<S(!new), A(!new)>(step: (S, A, S) -> bool, s: S)
    ensures Leads(step, s, [], s)
  {
  }

  lemma LeadsOne<S(!new), A(!new)>(step: (S, A, S) -> bool, s: S, a: A, s': S)
    requires step(s, a, s')
    ensures Leads(step, s, [a], s')
  {
    assert Path(step, s', [a][1..], s');
  }

  lemma {:induction false} LeadsOn<S(!new), A(!new)>(step: (S, A, S) -> bool, s: S, acts: seq<A>, s': S,
      more: seq<A>, s'': S)
    requires Leads(step, s, acts, s') && Leads(step, s', more, s'')
    ensures Leads(step, s, acts + more, s'')
    decreases |acts|
  {
    if acts == [] {
      assert acts + more == more;
    } else {
      var s1 :| step(s, acts[0], s1) && Path(step, s1, acts[1..], s');
      LeadsOn(step, s1, acts[1..], s', more, s'');
      assert (acts + more)[1..] == acts[1..] + more;
    }
  }

  lemma LeadsTwo<S(!new), A(!new)>(step: (S, A, S) -> bool, s: S, a: A, s1: S, b: A, s2: S)
    requires step(s, a, s1) && step(s1, b, s2)
    ensures Leads(step, s, [a, b], s2)
  {
    LeadsOne(step, s, a, s1);
    LeadsOne(step, s1, b, s2);
    LeadsOn(step, s, [a], s1, [b], s2);
    assert [a] + [b] == [a, b];
  }

  lemma LeadsThree<S(!new), A(!new)>(step: (S, A, S) -> bool, s: S, a: A, s1: S, b: A, s2: S, c: A, s3: S)
    requires step(s, a, s1) && step(s1, b, s2) && step(s2, c, s3)
    ensures Leads(step, s, [a, b, c], s3)
  {
    LeadsTwo(step, s, a, s1, b, s2);
    LeadsOne(step, s2, c, s3);
    LeadsOn(step, s, [a, b], s2, [c], s3);
    assert [a, b] + [c] == [a, b, c];
  }

  /** Whatever every step keeps, the actions keep. */
  lemma {:induction false} LeadsKeeps<S(!new), A(!new)>(step: (S, A, S) -> bool, inv: S -> bool, s: S, acts: seq<A>,
      s': S)
    requires inv(s) && Leads(step, s, acts, s') && forall x, a, y :: inv(x) && step(x, a, y) ==> inv(y)
    ensures inv(s')
    decreases |acts|
  {
    if acts != [] {
      var s1 :| step(s, acts[0], s1) && Path(step, s1, acts[1..], s');
      LeadsKeeps(step, inv, s1, acts[1..], s');
    }
  }
}
