/**
 What the integrity worker is for: with all blocks complete and the file readable, a round checks up to
 five blocks, and going on like this every block of a task is checked and its slot freed.
 */
module IntegrityEffects {
  import opened Integrity
  import opened Runs
  import opened Units

  ghost function CheckOne(): seq<Action> { [Judge(true), Read, Advance] }

  ghost function Checks(n: nat): seq<Action> { if n == 0 then [] else CheckOne() + Checks(n - 1) }

  /** What is owed without n blocks of an image from `block` on. */
  ghost function WithoutBlocks(owed: set<(nat, nat)>, image: nat, block: nat, n: nat): set<(nat, nat)> {
    set p | p in owed && !(p.0 == image && block <= p.1 < block + n)
  }

  function AllChecked(n: nat): seq<Fate> { seq(n, _ => Checked) }

  /** The worker n blocks further, all of them checked. */
  ghost function Further(s: State, n: nat): State
    requires s.worker.Checking?
  {
    var w := s.worker;
    s.(worker := w.(pos := w.pos + n, left := w.left - n, fates := w.fates + AllChecked(n)),
       owed := WithoutBlocks(s.owed, w.image, w.pos, n))
  }

  lemma ChecksOne(sizes: Sizes, s: State)
    requires s.worker.Checking? && s.worker.stage.AtTop? && s.worker.left > 0 && s.worker.pos < sizes(s.worker.image)
    ensures Runs.Leads(Steps(sizes), s, CheckOne(), Further(s, 1))
  {
    var s1 := Apply(sizes, s, Judge(true));
    var s2 := Apply(sizes, s1, Read);
    var s3 := Apply(sizes, s2, Advance);
    LeadsThree(Steps(sizes), s, Judge(true), s1, Read, s2, Advance, s3);
    assert AllChecked(1) == [Checked];
    assert s3.owed == WithoutBlocks(s.owed, s.worker.image, s.worker.pos, 1);
  }

  lemma {:induction false} ChecksMany(sizes: Sizes, s: State, n: nat)
    requires s.worker.Checking? && s.worker.stage.AtTop? && n <= s.worker.left
    requires n > 0 ==> s.worker.pos + n <= sizes(s.worker.image)
    ensures Runs.Leads(Steps(sizes), s, Checks(n), Further(s, n))
    decreases n
  {
    if n == 0 {
      assert AllChecked(0) == [] && WithoutBlocks(s.owed, s.worker.image, s.worker.pos, 0) == s.owed;
      LeadsNowhere(Steps(sizes), s);
    } else {
      ChecksOne(sizes, s);
      ChecksMany(sizes, Further(s, 1), n - 1);
      FurtherOn(s, n - 1);
      LeadsOn(Steps(sizes), s, CheckOne(), Further(s, 1), Checks(n - 1), Further(s, n));
    }
  }

  lemma FurtherOn(s: State, n: nat)
    requires s.worker.Checking?
    ensures Further(Further(s, 1), n) == Further(s, n + 1)
  {
    var w := s.worker;
    assert w.fates + AllChecked(1) + AllChecked(n) == w.fates + AllChecked(n + 1);
    assert WithoutBlocks(WithoutBlocks(s.owed, w.image, w.pos, 1), w.image, w.pos + 1, n)
      == WithoutBlocks(s.owed, w.image, w.pos, n + 1);
  }

  /** How many blocks a round on a task checks: five, unless the task or the image ends first. */
  function RoundLength(size: nat, t: Slot): nat
    requires t.Task? && t.count > 0
  {
    Min(Min(t.count, 5), if size > t.block then size - t.block else 0)
  }

  /** What is left of a task after such a round; a full scan goes on after every five. */
  function Rest(size: nat, t: Slot): Slot
    requires t.Task? && t.count > 0
  {
    if RoundLength(size, t) < 5 || t.count == 5 then Free
    else Task(t.image, t.block + 5, if t.count == CHECK_ALL then CHECK_ALL else t.count - 5)
  }

  /** The worker's round on slot i, with every block complete and readable. */
  ghost function RoundActs(i: nat, n: nat): seq<Action> { [BeginRound(i)] + Checks(n) + [EndRound] }

  lemma RoundChecks(sizes: Sizes, s: State, i: nat)
    requires Basic(sizes, s) && s.worker.Between? && i < |s.slots| && s.slots[i].Task?
    ensures s.slots[i].count > 0
    ensures var t := s.slots[i]; var size := sizes(t.image);
      Runs.Leads(Steps(sizes), s, RoundActs(i, RoundLength(size, t)),
        s.(slots := PutBack(s.slots, i, Rest(size, t)),
           owed := WithoutBlocks(s.owed, t.image, t.block, RoundLength(size, t))))
  {
    var t := s.slots[i];
    assert SlotOk(sizes, t);
    var n := RoundLength(sizes(t.image), t);
    var s1 := Apply(sizes, s, BeginRound(i));
    LeadsOne(Steps(sizes), s, BeginRound(i), s1);
    ChecksMany(sizes, s1, n);
    var s2 := Further(s1, n);
    LeadsOn(Steps(sizes), s, [BeginRound(i)], s1, Checks(n), s2);
    var s3 := Apply(sizes, s2, EndRound);
    assert AfterRound(t, s2.worker) == Rest(sizes(t.image), t);
    LeadsOne(Steps(sizes), s2, EndRound, s3);
    LeadsOn(Steps(sizes), s, [BeginRound(i)] + Checks(n), s2, [EndRound], s3);
  }

  /** Slot i is free, or no longer part of the queue, and nothing the task spans is owed a check any more. */
  ghost predicate WorkedOff(sizes: Sizes, s: State, i: nat, t: Slot)
    requires t.Task?
  {
    && (i < |s.slots| ==> s.slots[i].Free?)
    && forall x: nat :: x < sizes(t.image) && Spans(t, t.image, x) ==> (t.image, x) !in s.owed
  }

  /** Round by round, every block of a task is checked and its slot freed. */
  lemma {:induction false} TaskIsWorkedOff(sizes: Sizes, s: State, i: nat) returns (acts: seq<Action>, s': State)
    requires Basic(sizes, s) && s.worker.Between? && i < |s.slots| && s.slots[i].Task?
    ensures Runs.Leads(Steps(sizes), s, acts, s') && s'.worker.Between? && s'.owed <= s.owed
    ensures WorkedOff(sizes, s', i, s.slots[i])
    decreases if sizes(s.slots[i].image) > s.slots[i].block then sizes(s.slots[i].image) - s.slots[i].block else 0
  {
    var t := s.slots[i];
    var size := sizes(t.image);
    assert SlotOk(sizes, t);
    RoundChecks(sizes, s, i);
    var n := RoundLength(size, t);
    var s1 := s.(slots := PutBack(s.slots, i, Rest(size, t)), owed := WithoutBlocks(s.owed, t.image, t.block, n));
    if Rest(size, t).Free? {
      acts, s' := RoundActs(i, n), s1;
    } else {
      var rest;
      RoundKeeps(sizes, s, i, s1);
      rest, s' := TaskIsWorkedOff(sizes, s1, i);
      acts := RoundActs(i, n) + rest;
      LeadsOn(Steps(sizes), s, RoundActs(i, n), s1, rest, s');
      forall x: nat | x < size && Spans(t, t.image, x) ensures (t.image, x) !in s'.owed {
        assert x < t.block + 5 ==> (t.image, x) !in s1.owed;
        assert x >= t.block + 5 ==> Spans(s1.slots[i], t.image, x);
      }
    }
  }

  lemma RoundKeeps(sizes: Sizes, s: State, i: nat, s1: State)
    requires Basic(sizes, s) && s.worker.Between? && i < |s.slots| && s.slots[i].Task? && s.slots[i].count > 0
    requires s1.worker.Between? && s1.slots == PutBack(s.slots, i, Rest(sizes(s.slots[i].image), s.slots[i]))
    ensures Basic(sizes, s1)
  {
    assert SlotOk(sizes, s.slots[i]);
  }

  /** Between rounds the worker gives up a free last slot. */
  lemma TrimShortens(sizes: Sizes, s: State)
    requires s.worker.Between? && s.slots != [] && s.slots[|s.slots| - 1].Free?
    ensures Runs.Leads(Steps(sizes), s, [Trim], s.(slots := s.slots[..|s.slots| - 1]))
  {
    LeadsOne(Steps(sizes), s, Trim, Apply(sizes, s, Trim));
  }
}
