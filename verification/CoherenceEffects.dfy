/**
 What the steps of the local copy are for: a reply that is written and marked makes exactly its blocks
 available, a clearing takes exactly its blocks away, and a complete image gets rid of its map.
 */
module CoherenceEffects {
  import opened CacheMap
  import opened Coherence
  import opened Units
  import opened Runs

  /** The blocks wholly inside a range. */
  ghost function BlocksIn(remote: Data, start: nat, end: nat): set<nat> {
    set b | b in Blocks(remote) && start <= 4096 * b && 4096 * (b + 1) <= end
  }

  // ----- a reply -----

  /** The first n bytes of a reply for [start, end) get stored. */
  ghost function Storing(t: nat, img: nat, start: nat, end: nat, n: nat): seq<Action> {
    [Receive(t, img, start, end), Action.Write(t, n), StopWriting(t)]
  }

  /** The reply is in the local file, and the thread is about to mark it. */
  ghost function Written(remote: Data, s: State, t: nat, k: nat, start: nat, end: nat): State
    requires t < |s.actors| && start <= end <= |remote| == |s.local|
  {
    s.(local := s.local[..start] + remote[start..end] + s.local[end..],
       damaged := Outside(s.damaged, start, end), stale := Outside(s.stale, start, end),
       actors := s.actors[t := Marking(k, start, end, MapBytesOf(remote, start, end))])
  }

  lemma WritesReply(remote: Data, s: State, t: nat, img: nat, start: nat, end: nat, n: nat)
    requires Shape(remote, s) && t < |s.actors| && s.actors[t].Resting? && img < |s.current| && s.current[img] >= 0
    requires 0 < n && start + n <= end <= |remote|
    ensures var s' := Written(remote, s, t, s.current[img], start, start + n);
      Shape(remote, s') && Leads(Next(remote), s, Storing(t, img, start, end, n), s')
  {
    var a1, a2 := Receive(t, img, start, end), Action.Write(t, n);
    var s1 := Apply(remote, s, a1);
    KeepsShape(remote, s, a1);
    var s2 := Apply(remote, s1, a2);
    KeepsShape(remote, s1, a2);
    var s3 := Apply(remote, s2, StopWriting(t));
    KeepsShape(remote, s2, StopWriting(t));
    assert s3.actors == Written(remote, s, t, s.current[img], start, start + n).actors;
    LeadsThree(Next(remote), s, a1, s1, a2, s2, StopWriting(t), s3);
  }

  /** s' is s with these blocks marked in map k, and nothing else changed that anybody is served by. */
  ghost predicate Marked(s: State, s': State, k: nat, bs: set<nat>) {
    && k < |s.maps| && s'.maps == s.maps[k := s.maps[k] + bs]
    && s'.local == s.local && s'.current == s.current && s'.damaged == s.damaged && s'.stale == s.stale
  }

  /** The blocks a marking thread still has to mark. */
  ghost function ToMark(remote: Data, c: Actor): set<nat>
    requires c.Marking?
  {
    set b | b in BlocksIn(remote, c.start, c.end) && b / 8 in c.todo
  }

  /** All map bytes on the list of a marking thread get marked, in some order. */
  lemma {:induction false} MarksAll(remote: Data, s: State, t: nat) returns (acts: seq<Action>, s': State)
    requires Shape(remote, s) && t < |s.actors| && s.actors[t].Marking?
    ensures Leads(Next(remote), s, acts, s') && Shape(remote, s') && s'.actors == s.actors[t := Resting]
    ensures Marked(s, s', s.actors[t].k, ToMark(remote, s.actors[t]))
    decreases |s.actors[t].todo|
  {
    var c := s.actors[t];
    assert ActorShape(remote, s, c);
    if c.todo == {} {
      acts, s' := [Stop(t)], Apply(remote, s, Stop(t));
      LeadsOne(Next(remote), s, Stop(t), s');
      KeepsShape(remote, s, Stop(t));
      MarkedNothing(remote, s, c);
    } else {
      var pos :| pos in c.todo;
      var s1 := MarksOne(remote, s, t, pos);
      var rest;
      rest, s' := MarksAll(remote, s1, t);
      acts := [MarkByte(t, pos)] + rest;
      LeadsOn(Next(remote), s, [MarkByte(t, pos)], s1, rest, s');
      MarkedMore(remote, s, s1, s', c, pos);
    }
  }

  lemma MarksOne(remote: Data, s: State, t: nat, pos: nat) returns (s': State)
    requires Shape(remote, s) && t < |s.actors| && s.actors[t].Marking? && pos in s.actors[t].todo
    ensures Leads(Next(remote), s, [MarkByte(t, pos)], s') && Shape(remote, s')
    ensures var c := s.actors[t];
      && s'.actors == s.actors[t := Marking(c.k, c.start, c.end, c.todo - {pos})]
      && Marked(s, s', c.k, MarkedBy(remote, c, pos))
  {
    assert ActorShape(remote, s, s.actors[t]);
    s' := Apply(remote, s, MarkByte(t, pos));
    KeepsShape(remote, s, MarkByte(t, pos));
    LeadsOne(Next(remote), s, MarkByte(t, pos), s');
  }

  lemma MarkedNothing(remote: Data, s: State, c: Actor)
    requires c.Marking? && c.todo == {} && c.k < |s.maps|
    ensures s.maps[c.k := s.maps[c.k] + ToMark(remote, c)] == s.maps
  {
    assert ToMark(remote, c) == {};
    assert s.maps[c.k] + {} == s.maps[c.k];
  }

  lemma MarkedMore(remote: Data, s: State, s1: State, s': State, c: Actor, pos: nat)
    requires c.Marking? && pos in c.todo
    requires Marked(s, s1, c.k, MarkedBy(remote, c, pos))
    requires Marked(s1, s', c.k, ToMark(remote, Marking(c.k, c.start, c.end, c.todo - {pos})))
    ensures Marked(s, s', c.k, ToMark(remote, c))
  {
    var now, later := MarkedBy(remote, c, pos), ToMark(remote, Marking(c.k, c.start, c.end, c.todo - {pos}));
    forall b ensures b in ToMark(remote, c) <==> b in now + later {
      assert b in now <==> b in BlocksIn(remote, c.start, c.end) && b / 8 == pos;
    }
    assert s.maps[c.k] + now + later == s.maps[c.k] + ToMark(remote, c);
  }

  /**
   A reply for an image with a map, of which n bytes could be stored, handled by a thread alone: afterwards
   the local file holds the uplink's bytes there, exactly the blocks wholly inside them are marked besides
   those that were, and nothing else changed that anybody is served by.
   */
  lemma ReplyIsMarked(remote: Data, s: State, t: nat, img: nat, start: nat, end: nat, n: nat)
    returns (acts: seq<Action>, s': State)
    requires Shape(remote, s) && t < |s.actors| && s.actors[t].Resting? && img < |s.current| && s.current[img] >= 0
    requires 0 < n && start + n <= end <= |remote|
    ensures var k := s.current[img];
      && Leads(Next(remote), s, acts, s') && Shape(remote, s') && s'.actors == s.actors && s'.current == s.current
      && s'.local == s.local[..start] + remote[start..start + n] + s.local[start + n..]
      && s'.maps == s.maps[k := s.maps[k] + BlocksIn(remote, start, start + n)]
  {
    WritesReply(remote, s, t, img, start, end, n);
    var s1, first := Written(remote, s, t, s.current[img], start, start + n), Storing(t, img, start, end, n);
    var rest;
    rest, s' := MarksAll(remote, s1, t);
    acts := first + rest;
    LeadsOn(Next(remote), s, first, s1, rest, s');
    assert ToMark(remote, s1.actors[t]) == BlocksIn(remote, start, start + n) by {
      forall b | b in BlocksIn(remote, start, start + n) ensures b / 8 in s1.actors[t].todo {
        assert Inside(b, start, start + n);
      }
    }
    assert s'.actors == s.actors;
  }

  /** Without a map there is nothing to mark: the reply is only written. */
  lemma ReplyWithoutMap(remote: Data, s: State, t: nat, img: nat, start: nat, end: nat, n: nat)
    requires Shape(remote, s) && t < |s.actors| && s.actors[t].Resting? && img < |s.current| && s.current[img] == -1
    requires 0 < n && start + n <= end <= |remote|
    ensures Leads(Next(remote), s, Storing(t, img, start, end, n),
      Written(remote, s, t, 0, start, start + n).(actors := s.actors))
  {
    var a1, a2 := Receive(t, img, start, end), Action.Write(t, n);
    var s1 := Apply(remote, s, a1);
    KeepsShape(remote, s, a1);
    var s2 := Apply(remote, s1, a2);
    KeepsShape(remote, s1, a2);
    var s3 := Apply(remote, s2, StopWriting(t));
    assert s3.actors == s.actors;
    LeadsThree(Next(remote), s, a1, s1, a2, s2, StopWriting(t), s3);
  }

  // ----- an invalidation -----

  /** s' is s with these blocks cleared in map k, and nothing else changed that anybody is served by. */
  ghost predicate Cleared(s: State, s': State, k: nat, bs: set<nat>) {
    && k < |s.maps| && s'.maps == s.maps[k := s.maps[k] - bs]
    && s'.local == s.local && s'.current == s.current && s'.damaged == s.damaged
  }

  ghost function AtByte(bs: set<nat>, pos: nat): set<nat> { set b | b in bs && b / 8 == pos }

  lemma ClearsOne(remote: Data, s: State, t: nat, pos: nat) returns (s': State)
    requires Shape(remote, s) && t < |s.actors| && s.actors[t].Clearing?
    ensures Leads(Next(remote), s, [ClearByte(t, pos)], s') && Shape(remote, s')
    ensures var c := s.actors[t]; var bs := AtByte(c.todo, pos);
      s'.actors == s.actors[t := Clearing(c.img, c.k, c.todo - bs)] && Cleared(s, s', c.k, bs)
  {
    var c := s.actors[t];
    assert ActorShape(remote, s, c);
    assert c.todo * InByte(remote, pos) == AtByte(c.todo, pos);
    s' := Apply(remote, s, ClearByte(t, pos));
    KeepsShape(remote, s, ClearByte(t, pos));
    LeadsOne(Next(remote), s, ClearByte(t, pos), s');
  }

  lemma {:induction false} ClearsAll(remote: Data, s: State, t: nat) returns (acts: seq<Action>, s': State)
    requires Shape(remote, s) && t < |s.actors| && s.actors[t].Clearing?
    ensures Leads(Next(remote), s, acts, s') && Shape(remote, s') && s'.actors == s.actors[t := Resting]
    ensures Cleared(s, s', s.actors[t].k, s.actors[t].todo)
    decreases |s.actors[t].todo|
  {
    var c := s.actors[t];
    assert ActorShape(remote, s, c);
    if c.todo == {} {
      acts, s' := [Stop(t)], Apply(remote, s, Stop(t));
      LeadsOne(Next(remote), s, Stop(t), s');
      KeepsShape(remote, s, Stop(t));
      assert s.maps[c.k] - c.todo == s.maps[c.k];
    } else {
      var b :| b in c.todo;
      var s1 := ClearsOne(remote, s, t, b / 8);
      var now := AtByte(c.todo, b / 8);
      Smaller(c.todo, now, b);
      var rest;
      rest, s' := ClearsAll(remote, s1, t);
      acts := [ClearByte(t, b / 8)] + rest;
      LeadsOn(Next(remote), s, [ClearByte(t, b / 8)], s1, rest, s');
      ClearedMore(s, s1, s', c.k, now, c.todo);
    }
  }

  lemma ClearedMore(s: State, s1: State, s': State, k: nat, now: set<nat>, all: set<nat>)
    requires now <= all && Cleared(s, s1, k, now) && Cleared(s1, s', k, all - now)
    ensures Cleared(s, s', k, all)
  {
    assert s.maps[k] - now - (all - now) == s.maps[k] - all;
  }

  lemma Smaller(all: set<nat>, part: set<nat>, b: nat)
    requires b in all && b in part
    ensures |all - part| < |all|
  {
    assert all - part <= all - {b};
    SubsetSize(all - part, all - {b});
  }

  lemma {:induction false} SubsetSize(a: set<nat>, b: set<nat>)
    requires a <= b
    ensures |a| <= |b|
  {
    if a != {} {
      var x :| x in a;
      SubsetSize(a - {x}, b - {x});
    }
  }

  /**
   Blocks found bad, by a thread alone: afterwards the map of the image has exactly the blocks it had,
   without these. If the image had no map because it was complete, it gets one with all other blocks.
   */
  lemma InvalidationClears(remote: Data, s: State, t: nat, img: nat, bs: set<nat>)
    returns (acts: seq<Action>, s': State)
    requires Shape(remote, s) && t < |s.actors| && s.actors[t].Resting? && img < |s.current| && bs <= Blocks(remote)
    ensures Leads(Next(remote), s, acts, s') && Shape(remote, s') && s'.actors == s.actors && s'.local == s.local
    ensures |s'.current| == |s.current| && |s'.maps| >= |s.maps| && 0 <= s'.current[img] < |s'.maps|
    ensures s'.maps[s'.current[img]] == (if s.current[img] >= 0 then s.maps[s.current[img]] else Blocks(remote)) - bs
    ensures forall i :: 0 <= i < |s.current| && i != img ==> s'.current[i] == s.current[i]
    ensures forall k :: 0 <= k < |s.maps| && k != s.current[img] ==> s'.maps[k] == s.maps[k]
  {
    if s.current[img] >= 0 {
      acts, s' := ClearsInMap(remote, s, t, img, bs);
    } else {
      var s1 := Apply(remote, s, Alloc(img));
      KeepsShape(remote, s, Alloc(img));
      LeadsOne(Next(remote), s, Alloc(img), s1);
      var rest;
      rest, s' := ClearsInMap(remote, s1, t, img, bs);
      acts := [Alloc(img)] + rest;
      LeadsOn(Next(remote), s, [Alloc(img)], s1, rest, s');
    }
  }

  lemma ClearsInMap(remote: Data, s: State, t: nat, img: nat, bs: set<nat>) returns (acts: seq<Action>, s': State)
    requires Shape(remote, s) && t < |s.actors| && s.actors[t].Resting? && img < |s.current| && bs <= Blocks(remote)
    requires s.current[img] >= 0
    ensures Leads(Next(remote), s, acts, s') && Shape(remote, s') && s'.actors == s.actors
    ensures Cleared(s, s', s.current[img], bs)
  {
    var s1 := Apply(remote, s, Invalidate(t, img, bs));
    KeepsShape(remote, s, Invalidate(t, img, bs));
    LeadsOne(Next(remote), s, Invalidate(t, img, bs), s1);
    var rest;
    rest, s' := ClearsAll(remote, s1, t);
    acts := [Invalidate(t, img, bs)] + rest;
    LeadsOn(Next(remote), s, [Invalidate(t, img, bs)], s1, rest, s');
    assert s'.actors == s.actors;
  }

  // ----- completeness -----

  ghost function ScanBytes(t: nat, n: nat): seq<Action> { seq(n, _ => ScanByte(t)) }

  lemma {:induction false} ScansAll(remote: Data, s: State, t: nat)
    requires Shape(remote, s) && t < |s.actors| && s.actors[t].Scanning?
    requires Blocks(remote) <= s.maps[s.actors[t].k]
    ensures s.actors[t].pos <= NumMapBytes(remote)
    ensures var c := s.actors[t];
      Leads(Next(remote), s, ScanBytes(t, NumMapBytes(remote) - c.pos),
        s.(actors := s.actors[t := Scanning(c.img, c.k, NumMapBytes(remote))]))
    decreases NumMapBytes(remote) - s.actors[t].pos
  {
    var c := s.actors[t];
    assert ActorShape(remote, s, c);
    var n := NumMapBytes(remote) - c.pos;
    if n == 0 {
      assert s.actors[t := Scanning(c.img, c.k, NumMapBytes(remote))] == s.actors;
      LeadsNowhere(Next(remote), s);
      assert ScanBytes(t, n) == [];
    } else {
      var s1 := Apply(remote, s, ScanByte(t));
      KeepsShape(remote, s, ScanByte(t));
      ScansAll(remote, s1, t);
      LeadsOne(Next(remote), s, ScanByte(t), s1);
      var s' := s.(actors := s.actors[t := Scanning(c.img, c.k, NumMapBytes(remote))]);
      assert s1.actors[t := Scanning(c.img, c.k, NumMapBytes(remote))] == s'.actors;
      LeadsOn(Next(remote), s, [ScanByte(t)], s1, ScanBytes(t, n - 1), s');
      assert [ScanByte(t)] + ScanBytes(t, n - 1) == ScanBytes(t, n);
    }
  }

  /** A scan of a complete map, by a thread alone, ends with the image without a map. */
  lemma CompleteDropsMap(remote: Data, s: State, t: nat, img: nat)
    requires Shape(remote, s) && t < |s.actors| && s.actors[t].Resting? && img < |s.current| && s.current[img] >= 0
    requires Blocks(remote) <= s.maps[s.current[img]]
    ensures Leads(Next(remote), s, [Scan(t, img)] + ScanBytes(t, NumMapBytes(remote)) + [DropMap(t)],
      s.(current := s.current[img := -1], sawNone := true))
  {
    var n, k := NumMapBytes(remote), s.current[img];
    var s1 := Apply(remote, s, Scan(t, img));
    KeepsShape(remote, s, Scan(t, img));
    LeadsOne(Next(remote), s, Scan(t, img), s1);
    ScansAll(remote, s1, t);
    var s2 := s1.(actors := s1.actors[t := Scanning(img, k, n)]);
    LeadsOn(Next(remote), s, [Scan(t, img)], s1, ScanBytes(t, n), s2);
    var s' := Apply(remote, s2, DropMap(t));
    LeadsOne(Next(remote), s2, DropMap(t), s');
    LeadsOn(Next(remote), s, [Scan(t, img)] + ScanBytes(t, n), s2, [DropMap(t)], s');
    assert s'.actors == s.actors;
  }

  /** A scan may end at any time without consequences. */
  lemma ScanStops(remote: Data, s: State, t: nat, img: nat)
    requires Shape(remote, s) && t < |s.actors| && s.actors[t].Resting? && img < |s.current| && s.current[img] >= 0
    ensures Leads(Next(remote), s, [Scan(t, img), Stop(t)], s)
  {
    var s1 := Apply(remote, s, Scan(t, img));
    KeepsShape(remote, s, Scan(t, img));
    assert Apply(remote, s1, Stop(t)).actors == s.actors;
    LeadsTwo(Next(remote), s, Scan(t, img), s1, Stop(t), Apply(remote, s1, Stop(t)));
  }

  /** A reloaded image shares the map, or has none like the other, and knows of the same bad blocks. */
  lemma ReloadShares(remote: Data, s: State, img: nat)
    requires Shape(remote, s) && img < |s.current|
    ensures Leads(Next(remote), s, [Reload(img)],
      s.(current := s.current + [s.current[img]], invalid := s.invalid + [s.invalid[img]]))
  {
    LeadsOne(Next(remote), s, Reload(img), Apply(remote, s, Reload(img)));
  }
}
