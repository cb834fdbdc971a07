/**
 The integrity-check queue of `integrity.c`: requests merge into tasks, a worker checks up to five blocks
 of a task at a time with the lock dropped. `Sizes` gives the number of hash blocks of an image;
 images stay loaded, have a checksum list, and there is no shutdown.
 */
module Integrity {
  import opened Options
  import opened Runs
  import opened Units

  const QUEUE_SIZE := 200
  const CHECK_ALL := 0x7fff_ffff
  const ROUND := 5

  /** A queue slot: free, or `count` blocks of an image from `block` on. */
  datatype Slot = Free | Task(image: nat, block: nat, count: int)

  type Sizes = nat -> nat

  predicate Spans(s: Slot, image: nat, x: nat) {
    s.Task? && s.image == image && s.block <= x && (s.count == CHECK_ALL || x < s.block + s.count)
  }

  /** Some task will get to block x. */
  ghost predicate Covers(slots: seq<Slot>, image: nat, x: nat) {
    exists j :: 0 <= j < |slots| && Spans(slots[j], image, x)
  }

  /** A task that takes in a request for the block: a full scan not past it, or one that spans or touches it. */
  predicate TakesIn(s: Slot, image: nat, block: int) {
    s.Task? && s.image == image && s.block <= block && (s.count == CHECK_ALL || s.block + s.count >= block)
  }

  function FirstTaking(slots: seq<Slot>, image: nat, block: int): (j: nat)
    ensures j <= |slots| && (j < |slots| ==> TakesIn(slots[j], image, block))
    ensures forall i :: 0 <= i < j ==> !TakesIn(slots[i], image, block)
  {
    if slots == [] || TakesIn(slots[0], image, block) then 0 else 1 + FirstTaking(slots[1..], image, block)
  }

  function FirstFree(slots: seq<Slot>): (j: nat)
    ensures j <= |slots| && (j < |slots| ==> slots[j].Free?) && forall i :: 0 <= i < j ==> !slots[i].Free?
  {
    if slots == [] || slots[0].Free? then 0 else 1 + FirstFree(slots[1..])
  }

  function NewTask(image: nat, block: int): Slot
    requires block >= -1
  {
    if block == -1 then Task(image, 0, CHECK_ALL) else Task(image, block, 1)
  }

  /** `integrity_check`: block -1 asks for a full scan; None if the queue is full. */
  function Request(slots: seq<Slot>, image: nat, block: int): Option<seq<Slot>>
    requires block >= -1
  {
    var j := FirstTaking(slots, image, block);
    if j < |slots| then
      var s := slots[j];
      Some(if s.count != CHECK_ALL && s.block + s.count == block then slots[j := s.(count := s.count + 1)] else slots)
    else
      var f := FirstFree(slots);
      if f < |slots| then Some(slots[f := NewTask(image, block)])
      else if |slots| >= QUEUE_SIZE then None
      else Some(slots + [NewTask(image, block)])
  }

  predicate Wanted(image: nat, block: int, img: nat, x: nat) { img == image && (block == -1 || x == block) }

  /** A request is refused exactly if no task takes it in and all 200 slots are in use. */
  lemma RefusedExactlyIf(slots: seq<Slot>, image: nat, block: int)
    requires block >= -1
    ensures Request(slots, image, block).None? <==>
      && (forall i :: 0 <= i < |slots| ==> slots[i].Task? && !Joins(slots[i], image, block))
      && |slots| >= 200
  {
    var j, f := FirstTaking(slots, image, block), FirstFree(slots);
    if j < |slots| { assert TakesIn(slots[j], image, block); }
    if f < |slots| { assert slots[f].Free?; }
  }

  /**
   The request is for the image of a task that is not past the block, and is a full scan or reaches up
   to the block.
   */
  predicate Joins(t: Slot, image: nat, block: int) {
    && t.Task? && t.image == image && t.block <= block
    && (t.count == 0x7fff_ffff || block <= t.block + t.count)
  }

  /** Tasks ask for existing blocks only, and block counts fit an int. */
  ghost predicate SlotOk(sizes: Sizes, s: Slot) {
    s.Task? ==>
      s.count > 0 && sizes(s.image) < CHECK_ALL && (s.count == CHECK_ALL || s.block + s.count <= sizes(s.image))
  }

  ghost predicate SlotsOk(sizes: Sizes, slots: seq<Slot>) { forall i :: 0 <= i < |slots| ==> SlotOk(sizes, slots[i]) }

  ghost predicate ValidRequest(sizes: Sizes, image: nat, block: int) { -1 <= block < sizes(image) < CHECK_ALL }

  /** Which slot a request changes or uses. */
  function Target(slots: seq<Slot>, image: nat, block: int): nat {
    var j := FirstTaking(slots, image, block);
    if j < |slots| then j else FirstFree(slots)
  }

  predicate Grown(s: Slot, s': Slot)
    requires s.Task? && s'.Task?
  {
    s'.block == s.block && s'.count >= s.count && (s'.count == CHECK_ALL <==> s.count == CHECK_ALL)
  }

  lemma RequestShape(sizes: Sizes, slots: seq<Slot>, image: nat, block: int)
    requires ValidRequest(sizes, image, block) && Request(slots, image, block).Some? && SlotsOk(sizes, slots)
    ensures var slots', j := Request(slots, image, block).value, Target(slots, image, block);
      && SlotsOk(sizes, slots') && |slots| <= |slots'| <= |slots| + 1 && j < |slots'|
        && (|slots'| > |slots| ==> j == |slots|)
      && (forall i :: 0 <= i < |slots| && i != j ==> slots'[i] == slots[i])
      && slots'[j].Task? && slots'[j].image == image
      && (j < |slots| && slots[j].Task? ==> Grown(slots[j], slots'[j]))
  {
  }

  lemma TargetSpans(sizes: Sizes, slots: seq<Slot>, image: nat, block: int, img: nat, x: nat)
    requires ValidRequest(sizes, image, block) && Request(slots, image, block).Some? && SlotsOk(sizes, slots)
    ensures var slots', j := Request(slots, image, block).value, Target(slots, image, block);
      j < |slots'| && (Spans(slots'[j], img, x) <==>
        (j < |slots| && Spans(slots[j], img, x)) || Wanted(image, block, img, x))
  {
  }

  /** An accepted request makes the covered set exactly the old one and what was asked for. */
  lemma RequestCovers(sizes: Sizes, slots: seq<Slot>, image: nat, block: int, img: nat, x: nat)
    requires ValidRequest(sizes, image, block) && Request(slots, image, block).Some? && SlotsOk(sizes, slots)
    ensures Covers(Request(slots, image, block).value, img, x) <==>
      Covers(slots, img, x) || Wanted(image, block, img, x)
  {
    var slots', j := Request(slots, image, block).value, Target(slots, image, block);
    RequestShape(sizes, slots, image, block);
    TargetSpans(sizes, slots, image, block, img, x);
    if Covers(slots, img, x) {
      var i :| 0 <= i < |slots| && Spans(slots[i], img, x);
      assert Spans(slots'[i], img, x);
    }
    if Covers(slots', img, x) {
      var i :| 0 <= i < |slots'| && Spans(slots'[i], img, x);
      assert i != j ==> i < |slots| && Spans(slots[i], img, x);
    }
  }

  // ----- the worker and its rounds -----

  /**
   Where the worker is with the block at `pos`: before it, past asking whether it is complete, or reading
   it to compare its checksum.
   */
  datatype Stage = AtTop | Judged(complete: bool) | Reading

  /** What became of a block a round went past: checked, found incomplete, or the file could not be opened. */
  datatype Fate = Checked | Incomplete | Unread

  /**
   Between rounds, or at the task of slot i with the lock dropped. `asked` is the count the round started
   from, `left` how many more complete blocks it takes, and `fates` tells of the blocks before `pos`.
   */
  datatype Worker = Between | Checking(i: nat, image: nat, asked: int, pos: nat, left: int, stage: Stage,
    fates: seq<Fate>)

  /** `owed` holds the blocks asked for whose check has not begun, and which were not found incomplete, since. */
  datatype State = State(slots: seq<Slot>, worker: Worker, owed: set<(nat, nat)>)

  datatype Action =
    | Ask(image: nat, block: int)
    | BeginRound(i: nat)
    | Judge(complete: bool)   // only a full scan asks the map
    | Read                    // the check begins
    | Advance                 // on to the next block
    | EndRound
    | Trim                    // a free last slot is given up

  /** The round stops after enough complete blocks, or at the end of the image. */
  predicate RoundOver(sizes: Sizes, w: Worker)
    requires w.Checking?
  {
    w.left == 0 || w.pos >= sizes(w.image)
  }

  ghost predicate Enabled(sizes: Sizes, s: State, a: Action) {
    match a
    case Ask(image, block) => ValidRequest(sizes, image, block)
    case BeginRound(i) => s.worker.Between? && i < |s.slots| && s.slots[i].Task?
    case Judge(complete) =>
      && s.worker.Checking? && s.worker.stage.AtTop? && !RoundOver(sizes, s.worker)
      && (s.worker.asked != CHECK_ALL ==> complete)
    case Read => s.worker.Checking? && s.worker.stage == Judged(true)
    case Advance => s.worker.Checking? && !s.worker.stage.AtTop?
    case EndRound =>
      && s.worker.Checking? && s.worker.stage.AtTop? && RoundOver(sizes, s.worker)
      && s.worker.i < |s.slots| && s.slots[s.worker.i].Task?
    case Trim => s.worker.Between? && s.slots != [] && s.slots[|s.slots| - 1].Free?
  }

  /** The task as a round leaves it. */
  function AfterRound(s: Slot, w: Worker): Slot
    requires s.Task? && w.Checking?
  {
    var count := if w.asked != CHECK_ALL then s.count - (w.pos - s.block) else s.count;
    if w.left > 0 || count <= 0 then Free else Task(s.image, w.pos, count)
  }

  /** The queue gets shorter only if its last slot is freed. */
  function PutBack(slots: seq<Slot>, i: nat, s: Slot): seq<Slot>
    requires i < |slots|
  {
    if s.Free? && i + 1 == |slots| then slots[..i] else slots[i := s]
  }

  function FateOf(stage: Stage): Fate {
    if stage.Reading? then Checked else if stage == Judged(false) then Incomplete else Unread
  }

  ghost function AskedFor(sizes: Sizes, image: nat, block: int): set<(nat, nat)> {
    set x: nat | 0 <= x < sizes(image) && (block == -1 || x == block) :: (image, x)
  }

  ghost function Apply(sizes: Sizes, s: State, a: Action): State
    requires Enabled(sizes, s, a)
  {
    var w := s.worker;
    match a
    case Ask(image, block) =>
      var r := Request(s.slots, image, block);
      if r.None? then s else s.(slots := r.value, owed := s.owed + AskedFor(sizes, image, block))
    case BeginRound(i) =>
      var t := s.slots[i];
      s.(worker := Checking(i, t.image, t.count, t.block, Min(t.count, ROUND), AtTop, []))
    case Judge(complete) =>
      s.(worker := w.(stage := Judged(complete)), owed := if complete then s.owed else s.owed - {(w.image, w.pos)})
    case Read => s.(worker := w.(stage := Reading), owed := s.owed - {(w.image, w.pos)})
    case Advance =>
      s.(worker := w.(pos := w.pos + 1, left := if FateOf(w.stage).Incomplete? then w.left else w.left - 1,
                      stage := AtTop, fates := w.fates + [FateOf(w.stage)]))
    case EndRound => s.(slots := PutBack(s.slots, w.i, AfterRound(s.slots[w.i], w)), worker := Between)
    case Trim => s.(slots := s.slots[..|s.slots| - 1])
  }

  /** The check of block x is still to begin in this round. */
  predicate Ahead(w: Worker, x: nat)
    requires w.Checking?
  {
    w.pos < x || (w.pos == x && (w.stage.AtTop? || w.stage == Judged(true)))
  }

  /** Slot j still leads the worker to a check of block x. */
  predicate Leads(s: State, j: nat, image: nat, x: nat)
    requires j < |s.slots|
  {
    Spans(s.slots[j], image, x) && (s.worker.Checking? && s.worker.i == j ==> Ahead(s.worker, x))
  }

  ghost predicate Pending(sizes: Sizes, s: State, image: nat, x: nat) {
    x < sizes(image) && exists j :: 0 <= j < |s.slots| && Leads(s, j, image, x)
  }

  /**
   The request joins the task being checked right now, which is past the block, or reading it, or about to
   skip it as incomplete; and no other task will get there.
   */
  ghost predicate PassedOver(sizes: Sizes, s: State, image: nat, block: int, x: nat) {
    && s.worker.Checking? && Target(s.slots, image, block) == s.worker.i && !Ahead(s.worker, x)
    && !Pending(sizes, s, image, x)
  }

  ghost predicate WorkerOk(sizes: Sizes, s: State) {
    s.worker.Checking? ==>
      var w := s.worker;
      && w.i < |s.slots| && s.slots[w.i].Task? && s.slots[w.i].image == w.image && w.left >= 0
      && w.pos == s.slots[w.i].block + |w.fates|
      && (!w.stage.AtTop? ==> !RoundOver(sizes, w))
      && (w.asked == CHECK_ALL <==> s.slots[w.i].count == CHECK_ALL)
      && (w.asked != CHECK_ALL ==> w.stage != Judged(false) && Incomplete !in w.fates)
      && (w.asked != CHECK_ALL ==> w.asked <= s.slots[w.i].count && |w.fates| == Min(w.asked, ROUND) - w.left)
  }

  ghost predicate Basic(sizes: Sizes, s: State) { SlotsOk(sizes, s.slots) && WorkerOk(sizes, s) }

  lemma KeepsBasic(sizes: Sizes, s: State, a: Action)
    requires Basic(sizes, s) && Enabled(sizes, s, a)
    ensures Basic(sizes, Apply(sizes, s, a))
  {
    if a.Ask? && Request(s.slots, a.image, a.block).Some? {
      RequestShape(sizes, s.slots, a.image, a.block);
    }
  }

  /**
   A round takes exactly the blocks it went past off its task, even if the task grew meanwhile. Each was
   checked, or the file could not be opened, or, in a full scan only, the block was found incomplete.
   */
  lemma RoundRemovesChecked(sizes: Sizes, s: State, x: nat)
    requires Basic(sizes, s) && s.worker.Checking? && RoundOver(sizes, s.worker) && x < sizes(s.worker.image)
    ensures var w, t := s.worker, s.slots[s.worker.i];
      && (Spans(AfterRound(t, w), w.image, x) <==> Spans(t, w.image, x) && x >= w.pos)
      && (Spans(t, w.image, x) && !Spans(AfterRound(t, w), w.image, x) ==>
            x - t.block < |w.fates| && (w.fates[x - t.block] == Incomplete ==> w.asked == CHECK_ALL))
  {
    var w, t := s.worker, s.slots[s.worker.i];
    assert SlotOk(sizes, t);
    if Spans(t, w.image, x) && x < w.pos {
      assert w.fates[x - t.block] in w.fates;
    }
  }

  lemma PendingAsk(sizes: Sizes, s: State, a: Action, img: nat, x: nat)
    requires Basic(sizes, s) && Enabled(sizes, s, a) && Pending(sizes, s, img, x) && a.Ask?
    ensures Pending(sizes, Apply(sizes, s, a), img, x)
  {
    var s' := Apply(sizes, s, a);
    var i :| 0 <= i < |s.slots| && Leads(s, i, img, x);
    if Request(s.slots, a.image, a.block).Some? {
      RequestShape(sizes, s.slots, a.image, a.block);
      TargetSpans(sizes, s.slots, a.image, a.block, img, x);
      assert Leads(s', i, img, x);
    }
  }

  /** An accepted request is going to be checked exactly if it is not passed over. */
  lemma AskPendingExactlyIf(sizes: Sizes, s: State, image: nat, block: int, x: nat)
    requires Basic(sizes, s) && ValidRequest(sizes, image, block) && Request(s.slots, image, block).Some?
    requires x < sizes(image) && (block == -1 || x == block)
    ensures Pending(sizes, Apply(sizes, s, Ask(image, block)), image, x) <==> !PassedOver(sizes, s, image, block, x)
  {
    var s', j := Apply(sizes, s, Ask(image, block)), Target(s.slots, image, block);
    RequestShape(sizes, s.slots, image, block);
    TargetSpans(sizes, s.slots, image, block, image, x);
    if Pending(sizes, s, image, x) {
      PendingAsk(sizes, s, Ask(image, block), image, x);
    } else if PassedOver(sizes, s, image, block, x) {
      forall i | 0 <= i < |s'.slots| ensures !Leads(s', i, image, x) {
        assert i < |s.slots| ==> !Leads(s, i, image, x);
      }
    } else {
      assert Leads(s', j, image, x);
    }
  }

  /** The step that takes the worker past block x, the only block it can: it begins the check or gives it up. */
  predicate Settles(s: State, a: Action, image: nat, x: nat) {
    && s.worker.Checking? && s.worker.image == image && s.worker.pos == x
    && (a.Read? || a == Judge(false) || (a.Advance? && s.worker.stage == Judged(true)))
  }

  ghost predicate OtherLeads(s: State, image: nat, x: nat) {
    exists j :: 0 <= j < |s.slots| && !(s.worker.Checking? && s.worker.i == j) && Leads(s, j, image, x)
  }

  lemma PendingEnd(sizes: Sizes, s: State, a: Action, img: nat, x: nat)
    requires Basic(sizes, s) && Enabled(sizes, s, a) && Pending(sizes, s, img, x) && a.EndRound?
    ensures Pending(sizes, Apply(sizes, s, a), img, x)
  {
    var s', w := Apply(sizes, s, a), s.worker;
    var i :| 0 <= i < |s.slots| && Leads(s, i, img, x);
    if i == w.i {
      RoundRemovesChecked(sizes, s, x);
    }
    assert Leads(s', i, img, x);
  }

  lemma PendingSettled(sizes: Sizes, s: State, a: Action, img: nat, x: nat)
    requires Basic(sizes, s) && Enabled(sizes, s, a) && Pending(sizes, s, img, x) && Settles(s, a, img, x)
    ensures Pending(sizes, Apply(sizes, s, a), img, x) <==> OtherLeads(s, img, x)
  {
    var s' := Apply(sizes, s, a);
    if OtherLeads(s, img, x) {
      var j :| 0 <= j < |s.slots| && s.worker.i != j && Leads(s, j, img, x);
      assert Leads(s', j, img, x);
    } else {
      forall j | 0 <= j < |s'.slots| ensures !Leads(s', j, img, x) {
        if j != s.worker.i { assert !Leads(s, j, img, x); }
      }
    }
  }

  /**
   Once pending, a request stays so until the worker begins the check or gives it up, unless another
   task leads there.
   */
  lemma PendingEndsExactlyIf(sizes: Sizes, s: State, a: Action, img: nat, x: nat)
    requires Basic(sizes, s) && Enabled(sizes, s, a) && Pending(sizes, s, img, x)
    ensures !Pending(sizes, Apply(sizes, s, a), img, x) <==> Settles(s, a, img, x) && !OtherLeads(s, img, x)
  {
    if Settles(s, a, img, x) {
      PendingSettled(sizes, s, a, img, x);
    } else {
      match a {
        case Ask(_, _) => PendingAsk(sizes, s, a, img, x);
        case EndRound => PendingEnd(sizes, s, a, img, x);
        case _ =>
          var i :| 0 <= i < |s.slots| && Leads(s, i, img, x);
          assert Leads(Apply(sizes, s, a), i, img, x);
      }
    }
  }

  // ----- whole runs -----

  /** Every request still owed a check is going to get one. */
  ghost predicate Kept(sizes: Sizes, s: State) { forall p :: p in s.owed ==> Pending(sizes, s, p.0, p.1) }

  /**
   The steps that lose a request: one that passes it over when it is made, and going past an owed block
   because its file could not be opened.
   */
  ghost predicate Lossy(sizes: Sizes, s: State, a: Action) {
    match a
    case Ask(image, block) =>
      block >= -1 && Request(s.slots, image, block).Some? &&
      exists p :: p in AskedFor(sizes, image, block) && PassedOver(sizes, s, image, block, p.1)
    case Advance =>
      && s.worker.Checking? && s.worker.stage == Judged(true) && (s.worker.image, s.worker.pos) in s.owed
      && !OtherLeads(s, s.worker.image, s.worker.pos)
    case _ => false
  }

  lemma KeptAsk(sizes: Sizes, s: State, a: Action)
    requires Basic(sizes, s) && Enabled(sizes, s, a) && Kept(sizes, s) && a.Ask?
    ensures Kept(sizes, Apply(sizes, s, a)) <==> !Lossy(sizes, s, a)
  {
    var s' := Apply(sizes, s, a);
    if Request(s.slots, a.image, a.block).Some? {
      forall p | p in AskedFor(sizes, a.image, a.block)
        ensures p in s'.owed && (Pending(sizes, s', p.0, p.1) <==> !PassedOver(sizes, s, a.image, a.block, p.1)) {
        AskPendingExactlyIf(sizes, s, a.image, a.block, p.1);
      }
      forall p | p in s.owed ensures Pending(sizes, s', p.0, p.1) {
        PendingAsk(sizes, s, a, p.0, p.1);
      }
    }
  }

  lemma KeptExactlyIf(sizes: Sizes, s: State, a: Action)
    requires Basic(sizes, s) && Enabled(sizes, s, a) && Kept(sizes, s)
    ensures Kept(sizes, Apply(sizes, s, a)) <==> !Lossy(sizes, s, a)
  {
    if a.Ask? {
      KeptAsk(sizes, s, a);
    } else {
      var s' := Apply(sizes, s, a);
      forall p | p in s'.owed
        ensures !Pending(sizes, s', p.0, p.1) <==> Settles(s, a, p.0, p.1) && !OtherLeads(s, p.0, p.1) {
        PendingEndsExactlyIf(sizes, s, a, p.0, p.1);
      }
      if Lossy(sizes, s, a) {
        assert (s.worker.image, s.worker.pos) in s'.owed;
      }
    }
  }

  ghost predicate Fresh(s: State) { s.slots == [] && s.worker.Between? && s.owed == {} }

  ghost function Init(): State -> bool { (s: State) => Fresh(s) }

  ghost function Steps(sizes: Sizes): (State, Action, State) -> bool {
    (s: State, a: Action, s': State) => Enabled(sizes, s, a) && s' == Apply(sizes, s, a)
  }

  ghost function LossyIn(sizes: Sizes): (State, Action) -> bool { (s: State, a: Action) => Lossy(sizes, s, a) }

  lemma KeptThroughoutExactlyIf(sizes: Sizes, ss: seq<State>, acts: seq<Action>)
    requires IsTrace(Init(), Steps(sizes), ss, acts)
    ensures (forall i :: 0 <= i < |ss| ==> Kept(sizes, ss[i])) <==>
      (forall i :: 0 <= i < |acts| ==> !Lossy(sizes, ss[i], acts[i]))
  {
    var inv := (s: State) => Basic(sizes, s);
    var good := (s: State) => Kept(sizes, s);
    forall s, a, s' | inv(s) && Steps(sizes)(s, a, s')
      ensures inv(s') && (good(s) ==> (good(s') <==> !LossyIn(sizes)(s, a))) {
      KeepsBasic(sizes, s, a);
      if good(s) { KeptExactlyIf(sizes, s, a); }
    }
    GoodExactlyIf(Init(), Steps(sizes), inv, good, LossyIn(sizes), ss, acts);
    assert forall i :: 0 <= i < |ss| ==> (good(ss[i]) <==> Kept(sizes, ss[i]));
    assert forall i :: 0 <= i < |acts| ==> (LossyIn(sizes)(ss[i], acts[i]) <==> Lossy(sizes, ss[i], acts[i]));
  }

  /** Block x of the image begins to be checked, or is found incomplete. */
  predicate Handles(s: State, a: Action, image: nat, x: nat) {
    s.worker.Checking? && s.worker.image == image && s.worker.pos == x && (a.Read? || a == Judge(false))
  }

  /** The request is accepted and asks for block x of the image. */
  ghost predicate Accepts(sizes: Sizes, s: State, a: Action, image: nat, x: nat) {
    && a.Ask? && a.block >= -1 && Request(s.slots, a.image, a.block).Some?
    && (image, x) in AskedFor(sizes, a.image, a.block)
  }

  /** The block is handled after step i. */
  ghost predicate HandledIn(ss: seq<State>, acts: seq<Action>, i: nat, k: nat, image: nat, x: nat)
    requires k <= |acts| < |ss|
  {
    exists m :: i < m < k && Handles(ss[m], acts[m], image, x)
  }

  lemma OwedStep(sizes: Sizes, s: State, a: Action, image: nat, x: nat)
    requires Enabled(sizes, s, a)
    ensures (image, x) in Apply(sizes, s, a).owed <==>
      Accepts(sizes, s, a, image, x) || ((image, x) in s.owed && !Handles(s, a, image, x))
  {
  }

  /** A block is owed exactly if some accepted request asked for it and it was not handled since. */
  lemma {:induction false} OwedExactlyIf(sizes: Sizes, ss: seq<State>, acts: seq<Action>, k: nat, image: nat, x: nat)
    requires IsTrace(Init(), Steps(sizes), ss, acts) && k < |ss|
    ensures (image, x) in ss[k].owed <==>
      exists i :: 0 <= i < k && Accepts(sizes, ss[i], acts[i], image, x) && !HandledIn(ss, acts, i, k, image, x)
  {
    if k > 0 {
      var n := k - 1;
      OwedExactlyIf(sizes, ss, acts, n, image, x);
      assert Steps(sizes)(ss[n], acts[n], ss[n + 1]);
      OwedStep(sizes, ss[n], acts[n], image, x);
      forall i | 0 <= i < n
        ensures HandledIn(ss, acts, i, k, image, x) <==>
          HandledIn(ss, acts, i, n, image, x) || Handles(ss[n], acts[n], image, x) {
      }
      assert !HandledIn(ss, acts, n, k, image, x);
    }
  }

  /** Every block of every request accepted so far was handled since, or a task in the queue still leads to it. */
  ghost predicate AllAnswered(sizes: Sizes, ss: seq<State>, acts: seq<Action>, k: nat)
    requires k <= |acts| < |ss|
  {
    forall i: nat, image: nat, x: nat :: i < k && Accepts(sizes, ss[i], acts[i], image, x) ==>
      HandledIn(ss, acts, i, k, image, x) || Pending(sizes, ss[k], image, x)
  }

  lemma AnsweredIsKept(sizes: Sizes, ss: seq<State>, acts: seq<Action>, k: nat)
    requires IsTrace(Init(), Steps(sizes), ss, acts) && k < |ss|
    ensures AllAnswered(sizes, ss, acts, k) <==> Kept(sizes, ss[k])
  {
    forall image: nat, x: nat
      ensures (image, x) in ss[k].owed <==>
        exists i :: 0 <= i < k && Accepts(sizes, ss[i], acts[i], image, x) && !HandledIn(ss, acts, i, k, image, x) {
      OwedExactlyIf(sizes, ss, acts, k, image, x);
    }
  }

  /**
   In every run: every block of an accepted request gets a check that begins after the request, unless it
   is found incomplete after the request, if and only if no request is passed over and no owed block is
   given up because its file could not be opened.
   */
  lemma CheckedExactlyIf(sizes: Sizes, ss: seq<State>, acts: seq<Action>)
    requires IsTrace(Init(), Steps(sizes), ss, acts)
    ensures (forall k :: 0 <= k < |ss| ==> AllAnswered(sizes, ss, acts, k)) <==>
      (forall i :: 0 <= i < |acts| ==> !Lossy(sizes, ss[i], acts[i]))
  {
    forall k | 0 <= k < |ss| ensures AllAnswered(sizes, ss, acts, k) <==> Kept(sizes, ss[k]) {
      AnsweredIsKept(sizes, ss, acts, k);
    }
    KeptThroughoutExactlyIf(sizes, ss, acts);
  }

  lemma Then(sizes: Sizes, ss: seq<State>, acts: seq<Action>, a: Action) returns (ss': seq<State>, acts': seq<Action>)
    requires IsTrace(Init(), Steps(sizes), ss, acts) && Enabled(sizes, ss[|acts|], a)
    ensures IsTrace(Init(), Steps(sizes), ss', acts') && acts' == acts + [a]
    ensures ss' == ss + [Apply(sizes, ss[|acts|], a)]
  {
    ss', acts' := ss + [Apply(sizes, ss[|acts|], a)], acts + [a];
    forall i | 0 <= i < |acts'| ensures Steps(sizes)(ss'[i], acts'[i], ss'[i + 1]) {
      assert i < |acts| ==> Steps(sizes)(ss[i], acts[i], ss[i + 1]);
    }
  }

  /** The queue is empty and the worker idle, and block 0 was never checked after it was last asked for. */
  ghost predicate Lost(s: State) { s.slots == [] && s.worker.Between? && (0, 0) in s.owed }

  ghost function OneBlock(): Sizes { _ => 1 }

  /** A request that joins the running task behind the worker is lost. */
  lemma LostRequest() returns (ss: seq<State>, acts: seq<Action>)
    ensures IsTrace(Init(), Steps(OneBlock()), ss, acts) && Lost(ss[|acts|])
    ensures acts == [Ask(0, 0), BeginRound(0), Judge(true), Read, Advance, Ask(0, 0), EndRound]
  {
    var sizes := OneBlock();
    ss, acts := [State([], Between, {})], [];
    ss, acts := Then(sizes, ss, acts, Ask(0, 0));
    assert ss[1].slots == [Task(0, 0, 1)];
    ss, acts := Then(sizes, ss, acts, BeginRound(0));
    ss, acts := Then(sizes, ss, acts, Judge(true));
    ss, acts := Then(sizes, ss, acts, Read);
    ss, acts := Then(sizes, ss, acts, Advance);
    assert (0, 0) in AskedFor(sizes, 0, 0);
    ss, acts := Then(sizes, ss, acts, Ask(0, 0));
    assert ss[6].slots == [Task(0, 0, 1)];
    ss, acts := Then(sizes, ss, acts, EndRound);
  }

  /** So is one for a block a full scan has just found incomplete, although the block is complete by then. */
  lemma LostToScan() returns (ss: seq<State>, acts: seq<Action>)
    ensures IsTrace(Init(), Steps(OneBlock()), ss, acts) && Lost(ss[|acts|])
    ensures acts == [Ask(0, -1), BeginRound(0), Judge(false), Ask(0, 0), Advance, EndRound]
  {
    var sizes := OneBlock();
    ss, acts := [State([], Between, {})], [];
    ss, acts := Then(sizes, ss, acts, Ask(0, -1));
    assert ss[1].slots == [Task(0, 0, CHECK_ALL)];
    ss, acts := Then(sizes, ss, acts, BeginRound(0));
    ss, acts := Then(sizes, ss, acts, Judge(false));
    assert (0, 0) in AskedFor(sizes, 0, 0);
    ss, acts := Then(sizes, ss, acts, Ask(0, 0));
    assert ss[4].slots == [Task(0, 0, CHECK_ALL)];
    ss, acts := Then(sizes, ss, acts, Advance);
    ss, acts := Then(sizes, ss, acts, EndRound);
  }

  /** And one whose block cannot be read because no file could be opened. */
  lemma LostUnread() returns (ss: seq<State>, acts: seq<Action>)
    ensures IsTrace(Init(), Steps(OneBlock()), ss, acts) && Lost(ss[|acts|])
    ensures acts == [Ask(0, 0), BeginRound(0), Judge(true), Advance, EndRound]
  {
    var sizes := OneBlock();
    ss, acts := [State([], Between, {})], [];
    assert (0, 0) in AskedFor(sizes, 0, 0);
    ss, acts := Then(sizes, ss, acts, Ask(0, 0));
    assert ss[1].slots == [Task(0, 0, 1)];
    ss, acts := Then(sizes, ss, acts, BeginRound(0));
    ss, acts := Then(sizes, ss, acts, Judge(true));
    ss, acts := Then(sizes, ss, acts, Advance);
    ss, acts := Then(sizes, ss, acts, EndRound);
  }
}
