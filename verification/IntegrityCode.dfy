/** The queue array and the loops of `integrity.c`, proved against Integrity. */
module IntegrityCode {
  import opened Options
  import opened Integrity
  import opened Units

  lemma {:induction false} FirstTakingIs(slots: seq<Slot>, image: nat, block: int, j: nat)
    requires j <= |slots| && (j < |slots| ==> TakesIn(slots[j], image, block))
    requires forall i :: 0 <= i < j ==> !TakesIn(slots[i], image, block)
    ensures FirstTaking(slots, image, block) == j
  {
  }

  class CheckQueue {
    const queue: array<Slot>
    var queueLen: nat

    ghost predicate Valid() reads this { queue.Length == QUEUE_SIZE && queueLen <= QUEUE_SIZE }

    ghost function Slots(): seq<Slot> reads this, queue
      requires Valid()
    {
      queue[..queueLen]
    }

    constructor ()
      ensures Valid() && Slots() == [] && fresh(queue)
    {
      queue := new Slot[QUEUE_SIZE](_ => Free);
      queueLen := 0;
    }

    /** `integrity_check` without waiting: false if the queue is full. */
    method Check(image: nat, block: int) returns (accepted: bool)
      requires Valid() && block >= -1
      modifies this`queueLen, queue
      ensures Valid() && accepted == Request(old(Slots()), image, block).Some?
      ensures Slots() == if accepted then Request(old(Slots()), image, block).value else old(Slots())
    {
      ghost var slots := Slots();
      var freeSlot := -1;
      var i := 0;
      while i < queueLen
        invariant i <= queueLen == |slots| && queue[..queueLen] == slots && -1 <= freeSlot < i
        invariant forall k :: 0 <= k < i ==> !TakesIn(slots[k], image, block)
        invariant if freeSlot == -1 then forall k :: 0 <= k < i ==> !slots[k].Free?
                  else slots[freeSlot].Free? && forall k :: 0 <= k < freeSlot ==> !slots[k].Free?
      {
        var s := queue[i];
        assert s == slots[i];
        if freeSlot == -1 && s.Free? {
          freeSlot := i;
        } else if s.Task? && s.image == image && s.block <= block
                  && (s.count == CHECK_ALL || s.block + s.count >= block) {
          FirstTakingIs(slots, image, block, i);
          if s.count != CHECK_ALL && s.block + s.count == block {
            queue[i] := s.(count := s.count + 1);
            assert Slots() == slots[i := s.(count := s.count + 1)];
          }
          return true;
        }
        i := i + 1;
      }
      FirstTakingIs(slots, image, block, i);
      if freeSlot == -1 {
        if queueLen >= QUEUE_SIZE {
          return false;
        }
        freeSlot := queueLen;
        queueLen := queueLen + 1;
      }
      queue[freeSlot] := NewTask(image, block);
      assert Slots() == if freeSlot < |slots| then slots[freeSlot := NewTask(image, block)]
        else slots + [NewTask(image, block)];
      return true;
    }

    /** The end of a round, with the lock taken again. */
    method FinishRound(i: nat, ghost w: Worker, pos: nat, left: int, asked: int) returns (more: bool)
      requires Valid() && i < queueLen && queue[i].Task?
      requires w.Checking? && w.asked == asked && w.pos == pos && w.left == left
      modifies this`queueLen, queue
      ensures Valid() && Slots() == PutBack(old(Slots()), i, AfterRound(old(Slots()[i]), w))
      ensures more == AfterRound(old(Slots()[i]), w).Task?
    {
      ghost var slots := Slots();
      var s := queue[i];
      var count := if asked != CHECK_ALL then s.count - (pos - s.block) else s.count;
      more := !(left > 0 || count <= 0);
      if more {
        queue[i] := Task(s.image, pos, count);
        assert Slots() == slots[i := Task(s.image, pos, count)];
      } else {
        queue[i] := Free;
        assert Slots() == slots[i := Free];
        if i + 1 == queueLen {
          queueLen := queueLen - 1;
          assert Slots() == slots[..i];
        }
      }
    }
  }

  /** What becomes of block x, by what the map says when a full scan asks and whether the file can be opened. */
  function Fated(asked: int, complete: nat -> bool, readable: nat -> bool, x: nat): Fate {
    if asked == CHECK_ALL && !complete(x) then Incomplete else if readable(x) then Checked else Unread
  }

  /** The blocks that count against a round's limit. */
  function Taken(fates: seq<Fate>): nat {
    if fates == [] then 0 else
    Taken(fates[..|fates| - 1]) + (if fates[|fates| - 1].Incomplete? then 0 else 1)
  }

  lemma TakenMore(fates: seq<Fate>, f: Fate)
    ensures Taken(fates + [f]) == Taken(fates) + if f.Incomplete? then 0 else 1
  {
    assert (fates + [f])[..|fates|] == fates;
  }

  /**
   The unlocked part of a round: goes through the blocks from `block` on until enough of them were
   taken or the image ends. A block is checked unless a full scan finds it incomplete or the file
   cannot be opened.
   */
  method Visits(block: nat, asked: int, numBlocks: nat, complete: nat -> bool, readable: nat -> bool)
    returns (pos: nat, left: int, fates: seq<Fate>)
    requires asked > 0
    ensures pos == block + |fates| && left == Min(asked, ROUND) - Taken(fates) >= 0
    ensures forall x :: block <= x < pos ==> fates[x - block] == Fated(asked, complete, readable, x)
    ensures RoundOver(_ => numBlocks, Checking(0, 0, asked, pos, left, AtTop, fates))
    ensures (pos > numBlocks ==> pos == block) && (left == 0 ==> pos > block)
  {
    pos, left, fates := block, Min(asked, ROUND), [];
    while pos < numBlocks
      invariant pos == block + |fates| && (pos > numBlocks ==> pos == block)
      invariant left == Min(asked, ROUND) - Taken(fates) > 0
      invariant forall x :: block <= x < pos ==> fates[x - block] == Fated(asked, complete, readable, x)
    {
      var ok := true;
      if asked == CHECK_ALL {
        ok := complete(pos);
      }
      var fate := if !ok then Incomplete else if readable(pos) then Checked else Unread;
      TakenMore(fates, fate);
      fates := fates + [fate];
      pos := pos + 1;
      if ok {
        left := left - 1;
        if left == 0 {
          break;
        }
      }
    }
  }

  predicate RoundGives(complete: nat -> nat -> bool, readable: nat -> nat -> bool, r: nat, x: nat, f: Fate) {
    f == Fated(CHECK_ALL, complete(r), readable(r), x)
  }

  predicate InSomeRound(complete: nat -> nat -> bool, readable: nat -> nat -> bool, rounds: nat, x: nat, f: Fate) {
    exists r :: 0 <= r < rounds && RoundGives(complete, readable, r, x, f)
  }

  /**
   All rounds of a full scan: every hash block is gone through exactly once, in ascending order, in one
   of the rounds; it is checked unless incomplete or unreadable then, and the scan ends with its slot freed.
   */
  method FullScan(image: nat, numBlocks: nat, complete: nat -> nat -> bool, readable: nat -> nat -> bool)
    returns (fates: seq<Fate>, rounds: nat)
    ensures |fates| == numBlocks && rounds <= numBlocks + 1
    ensures forall x :: 0 <= x < numBlocks ==> InSomeRound(complete, readable, rounds, x, fates[x])
  {
    var task := NewTask(image, -1);
    fates, rounds := [], 0;
    while task.Task?
      invariant task.Task? ==> task == Task(image, |fates|, CHECK_ALL) && |fates| <= numBlocks && rounds <= |fates|
      invariant task.Free? ==> |fates| == numBlocks
      invariant rounds <= numBlocks + 1
      invariant forall x :: 0 <= x < |fates| ==> InSomeRound(complete, readable, rounds, x, fates[x])
      decreases task.Task?, numBlocks - |fates|
    {
      var pos, left, more := Visits(task.block, task.count, numBlocks, complete(rounds), readable(rounds));
      forall x | 0 <= x < pos ensures InSomeRound(complete, readable, rounds + 1, x, (fates + more)[x]) {
        if x < |fates| {
          assert InSomeRound(complete, readable, rounds, x, fates[x]);
          var r :| 0 <= r < rounds && RoundGives(complete, readable, r, x, fates[x]);
          assert RoundGives(complete, readable, r, x, (fates + more)[x]);
        } else {
          assert RoundGives(complete, readable, rounds, x, (fates + more)[x]);
        }
      }
      fates := fates + more;
      task := AfterRound(task, Checking(0, image, CHECK_ALL, pos, left, AtTop, more));
      rounds := rounds + 1;
    }
  }
}
