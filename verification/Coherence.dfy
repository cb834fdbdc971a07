/**
 Coherence of the local copy of a proxied image over whole runs. Any number of threads write replies in
 pieces and mark them, clear blocks found bad, or scan a map for completeness and then drop it; every
 access to a map byte is a step of its own. Several images may share the file and the map, as they do
 after a reload, and the disk may damage stored bytes at any time.
 */
module Coherence {
  import opened CacheMap
  import opened Units
  import Runs

  type Data = seq<int>

  /** What a thread is doing; k is the number of the map it grabbed. */
  datatype Actor =
    | Resting
    | Writing(img: nat, start: nat, end: nat, done: nat)       // storing a reply
    | Marking(k: nat, start: nat, end: nat, todo: set<nat>)    // map bytes still to set
    | Clearing(img: nat, k: nat, todo: set<nat>)               // blocks still to clear
    | Scanning(img: nat, k: nat, pos: nat)                     // map bytes below pos were seen full

  /**
   All map objects ever made, by number; current[img] is the one an image refers to, or -1. For the
   record: `damaged` are the bytes damaged since they were last stored; `stale` are those whose block was
   found bad and cleared since they were last stored; `invalid[img]` are the blocks found bad in the file
   and not since fetched again, every byte of them, and marked in the map of the image; `sawNone` tells
   whether some image had no map at some time.
   */
  datatype State = State(local: Data, maps: seq<set<nat>>, current: seq<int>, actors: seq<Actor>,
                         damaged: set<nat>, stale: set<nat>, invalid: seq<set<nat>>, sawNone: bool)

  datatype Action =
    | Receive(t: nat, img: nat, start: nat, end: nat)
    | Write(t: nat, n: nat)                     // pwrite stored n bytes
    | StopWriting(t: nat)                       // all stored, or the write failed for good; grab the map
    | MarkByte(t: nat, pos: nat)
    | Invalidate(t: nat, img: nat, blocks: set<nat>) // grab the map
    | GiveUp(img: nat, blocks: set<nat>)        // invalidation found no map, even after making one
    | ClearByte(t: nat, pos: nat)
    | Scan(t: nat, img: nat)                    // image_isComplete grabs the map
    | ScanByte(t: nat)
    | DropMap(t: nat)                           // under the image lock, if it is still the image's map
    | Stop(t: nat)                              // nothing left to do, or not complete
    | Alloc(img: nat)                           // allocCacheMap( image, true )
    | Reload(img: nat)                          // a new image for the same file, sharing the map
    | Damage(i: nat, v: int)

  ghost function Blocks(remote: Data): set<nat> { set b: nat | 0 <= b < |remote| && BLOCK * b < |remote| }

  /** The blocks whose bits are in map byte pos. */
  ghost function InByte(remote: Data, pos: nat): set<nat> { set b | b in Blocks(remote) && b / 8 == pos }

  function NumMapBytes(remote: Data): nat { (|remote| / BLOCK + 7) / 8 }

  ghost function MapBytesOf(remote: Data, start: nat, end: nat): set<nat> {
    set b | b in Blocks(remote) && Inside(b, start, end) :: b / 8
  }

  ghost predicate Enabled(remote: Data, s: State, a: Action) {
    match a
    case Receive(t, img, start, end) =>
      t < |s.actors| && s.actors[t].Resting? && img < |s.current| && start <= end <= |remote|
    case Write(t, n) =>
      t < |s.actors| && s.actors[t].Writing? && s.actors[t].start + s.actors[t].done + n <= s.actors[t].end
    case StopWriting(t) => t < |s.actors| && s.actors[t].Writing?
    case MarkByte(t, pos) => t < |s.actors| && s.actors[t].Marking? && pos in s.actors[t].todo
    case Invalidate(t, img, blocks) =>
      t < |s.actors| && s.actors[t].Resting? && img < |s.current| && s.current[img] >= 0 && blocks <= Blocks(remote)
    case GiveUp(img, blocks) => img < |s.current| && s.current[img] == -1 && blocks <= Blocks(remote) && blocks != {}
    case ClearByte(t, pos) => t < |s.actors| && s.actors[t].Clearing?
    case Scan(t, img) => t < |s.actors| && s.actors[t].Resting? && img < |s.current| && s.current[img] >= 0
    case ScanByte(t) =>
      && t < |s.actors| && s.actors[t].Scanning? && s.actors[t].pos < NumMapBytes(remote) && s.actors[t].k < |s.maps|
      && InByte(remote, s.actors[t].pos) <= s.maps[s.actors[t].k]
    case DropMap(t) => t < |s.actors| && s.actors[t].Scanning? && s.actors[t].pos == NumMapBytes(remote)
    case Stop(t) =>
      && t < |s.actors|
      && (s.actors[t].Scanning? || ((s.actors[t].Marking? || s.actors[t].Clearing?) && s.actors[t].todo == {}))
    case Alloc(img) => img < |s.current| && s.current[img] == -1
    case Reload(img) => img < |s.current|
    case Damage(i, _) => i < |remote|
  }

  ghost predicate ActorShape(remote: Data, s: State, c: Actor) {
    match c
    case Resting => true
    case Writing(img, start, end, done) => img < |s.current| && start + done <= end <= |remote|
    case Marking(k, start, end, _) => k < |s.maps| && start <= end <= |remote|
    case Clearing(img, k, todo) => img < |s.current| && k < |s.maps| && todo <= Blocks(remote)
    case Scanning(img, k, pos) => img < |s.current| && k < |s.maps| && pos <= NumMapBytes(remote)
  }

  ghost predicate Shape(remote: Data, s: State) {
    && |s.local| == |remote| && |s.invalid| == |s.current|
    && (forall img :: 0 <= img < |s.current| ==> -1 <= s.current[img] < |s.maps|)
    && (forall t :: 0 <= t < |s.actors| ==> ActorShape(remote, s, s.actors[t]))
  }

  ghost function Act(s: State, t: nat, c: Actor): State
    requires t < |s.actors|
  {
    s.(actors := s.actors[t := c])
  }

  ghost function Outside(bytes: set<nat>, from: nat, to: nat): set<nat> { set i | i in bytes && !(from <= i < to) }

  /** The blocks an `atomic_fetch_or` on map byte pos sets. */
  ghost function MarkedBy(remote: Data, c: Actor, pos: nat): set<nat>
    requires c.Marking?
  {
    set b | b in InByte(remote, pos) && Inside(b, c.start, c.end)
  }

  ghost function AfterMark(s: State, k: nat, bs: set<nat>): seq<set<nat>>
    requires |s.invalid| == |s.current|
  {
    seq(|s.invalid|, j requires 0 <= j < |s.invalid| => if s.current[j] == k then s.invalid[j] - bs else s.invalid[j])
  }

  ghost function BytesOf(remote: Data, bs: set<nat>): set<nat> {
    set i: nat | 0 <= i < |remote| && i / BLOCK in bs
  }

  ghost function StaleBlocks(s: State): set<nat> { set i | i in s.stale :: i / BLOCK }

  /** The blocks were found bad, for every image of the file. */
  ghost function FoundBad(remote: Data, s: State, bs: set<nat>): State {
    s.(stale := s.stale + BytesOf(remote, bs),
       invalid := seq(|s.invalid|, j requires 0 <= j < |s.invalid| => s.invalid[j] + bs))
  }

  ghost function Apply(remote: Data, s: State, a: Action): State
    requires Shape(remote, s) && Enabled(remote, s, a)
  {
    match a
    case Receive(t, img, start, end) => Act(s, t, Writing(img, start, end, 0))
    case Write(t, n) =>
      var c := s.actors[t];
      assert ActorShape(remote, s, c);
      var p := c.start + c.done;
      Act(s, t, c.(done := c.done + n)).(local := s.local[..p] + remote[p..p + n] + s.local[p + n..],
                                         damaged := Outside(s.damaged, p, p + n),
                                         stale := Outside(s.stale, p, p + n))
    case StopWriting(t) =>
      var c := s.actors[t];
      assert ActorShape(remote, s, c);
      // Nothing stored, or no map: nothing to mark.
      if c.done == 0 || s.current[c.img] < 0 then Act(s, t, Resting)
      else Act(s, t, Marking(s.current[c.img], c.start, c.start + c.done,
        MapBytesOf(remote, c.start, c.start + c.done)))
    case MarkByte(t, pos) =>
      var c := s.actors[t];
      assert ActorShape(remote, s, c);
      var bs := MarkedBy(remote, c, pos);
      Act(s, t, Marking(c.k, c.start, c.end, c.todo - {pos})).(
        maps := s.maps[c.k := s.maps[c.k] + bs], invalid := AfterMark(s, c.k, bs - StaleBlocks(s)))
    case Invalidate(t, img, blocks) => Act(s, t, Clearing(img, s.current[img], blocks))
    case GiveUp(_, blocks) => FoundBad(remote, s, blocks)
    case ClearByte(t, pos) =>
      var c := s.actors[t];
      assert ActorShape(remote, s, c);
      var bs := c.todo * InByte(remote, pos);
      FoundBad(remote, Act(s, t, Clearing(c.img, c.k, c.todo - bs)).(maps := s.maps[c.k := s.maps[c.k] - bs]), bs)
    case Scan(t, img) => Act(s, t, Scanning(img, s.current[img], 0))
    case ScanByte(t) => Act(s, t, s.actors[t].(pos := s.actors[t].pos + 1))
    case DropMap(t) =>
      var c := s.actors[t];
      assert ActorShape(remote, s, c);
      if s.current[c.img] == c.k then Act(s, t, Resting).(current := s.current[c.img := -1], sawNone := true)
      else Act(s, t, Resting)
    case Stop(t) => Act(s, t, Resting)
    case Alloc(img) => s.(maps := s.maps + [Blocks(remote)], current := s.current[img := |s.maps|])
    case Reload(img) => s.(current := s.current + [s.current[img]], invalid := s.invalid + [s.invalid[img]])
    case Damage(i, v) => s.(local := s.local[i := v], damaged := s.damaged + {i})
  }

  lemma KeepsActorShape(remote: Data, s: State, a: Action, t: nat)
    requires Shape(remote, s) && Enabled(remote, s, a) && t < |s.actors|
    ensures t < |Apply(remote, s, a).actors|
    ensures ActorShape(remote, Apply(remote, s, a), Apply(remote, s, a).actors[t])
  {
    assert ActorShape(remote, s, s.actors[t]);
  }

  lemma KeepsShape(remote: Data, s: State, a: Action)
    requires Shape(remote, s) && Enabled(remote, s, a)
    ensures Shape(remote, Apply(remote, s, a))
  {
    var s' := Apply(remote, s, a);
    assert |s'.actors| == |s.actors|;
    forall t | 0 <= t < |s'.actors| ensures ActorShape(remote, s', s'.actors[t]) {
      KeepsActorShape(remote, s, a, t);
    }
  }

  // ----- what is marked was stored -----

  /** Byte i is the uplink's, unless the disk damaged it since it was stored. */
  predicate Stored(remote: Data, s: State, i: nat) {
    i < |remote| == |s.local| && (s.local[i] == remote[i] || i in s.damaged)
  }

  ghost predicate AllStored(remote: Data, s: State, from: nat, to: nat) {
    forall i: nat :: from <= i < to ==> Stored(remote, s, i)
  }

  ghost predicate Good(remote: Data, s: State, b: nat) { AllStored(remote, s, BLOCK * b, BLOCK * (b + 1)) }

  ghost predicate Complete(remote: Data, s: State) { forall b :: b in Blocks(remote) ==> Good(remote, s, b) }

  ghost predicate ActorStored(remote: Data, s: State, c: Actor) {
    match c
    case Writing(_, start, _, done) => AllStored(remote, s, start, start + done)
    case Marking(_, start, end, _) => AllStored(remote, s, start, end)
    case Scanning(_, _, pos) => forall b :: b in Blocks(remote) && b / 8 < pos ==> Good(remote, s, b)
    case _ => true
  }

  ghost predicate StoredInv(remote: Data, s: State) {
    && Shape(remote, s)
    && (forall k, b :: 0 <= k < |s.maps| && b in s.maps[k] ==> Good(remote, s, b))
    && (forall img :: 0 <= img < |s.current| && s.current[img] == -1 ==> s.sawNone)
    && (s.sawNone ==> Complete(remote, s))
    && (forall t :: 0 <= t < |s.actors| ==> ActorStored(remote, s, s.actors[t]))
  }

  /** Nothing ever stops being stored. */
  lemma StoredGrows(remote: Data, s: State, a: Action, i: nat)
    requires Shape(remote, s) && Enabled(remote, s, a) && Stored(remote, s, i)
    ensures Stored(remote, Apply(remote, s, a), i)
  {
    if a.Write? { assert ActorShape(remote, s, s.actors[a.t]); }
  }

  lemma GoodGrows(remote: Data, s: State, a: Action)
    requires Shape(remote, s) && Enabled(remote, s, a)
    ensures forall from: nat, to: nat :: AllStored(remote, s, from, to) ==>
      AllStored(remote, Apply(remote, s, a), from, to)
    ensures forall b: nat :: Good(remote, s, b) ==> Good(remote, Apply(remote, s, a), b)
  {
    forall i: nat | Stored(remote, s, i) ensures Stored(remote, Apply(remote, s, a), i) {
      StoredGrows(remote, s, a, i);
    }
  }

  lemma BlockInMap(remote: Data, b: nat)
    requires b in Blocks(remote) && |remote| % BLOCK == 0
    ensures b / 8 < NumMapBytes(remote)
  {
    assert b < |remote| / BLOCK;
  }

  lemma StoredActor(remote: Data, s: State, a: Action, t: nat)
    requires StoredInv(remote, s) && Enabled(remote, s, a) && t < |s.actors|
    ensures t < |Apply(remote, s, a).actors| && ActorStored(remote, Apply(remote, s, a), Apply(remote, s, a).actors[t])
  {
    GoodGrows(remote, s, a);
    var s', c := Apply(remote, s, a), s.actors[t];
    assert ActorStored(remote, s, c) && ActorShape(remote, s, c);
    if a.Write? && a.t == t {
      forall i: nat | c.start <= i < c.start + c.done + a.n ensures Stored(remote, s', i) {
        if i < c.start + c.done { assert Stored(remote, s, i); StoredGrows(remote, s, a, i); }
      }
    }
  }

  lemma MarkedWereStored(remote: Data, s: State, a: Action)
    requires StoredInv(remote, s) && Enabled(remote, s, a) && a.MarkByte?
    ensures forall b :: b in MarkedBy(remote, s.actors[a.t], a.pos) ==> Good(remote, s, b)
  {
    assert ActorStored(remote, s, s.actors[a.t]);
  }

  lemma KeepsStored(remote: Data, s: State, a: Action)
    requires |remote| % BLOCK == 0 && StoredInv(remote, s) && Enabled(remote, s, a)
    ensures StoredInv(remote, Apply(remote, s, a))
  {
    var s' := Apply(remote, s, a);
    KeepsShape(remote, s, a);
    GoodGrows(remote, s, a);
    forall t | 0 <= t < |s'.actors| ensures ActorStored(remote, s', s'.actors[t]) {
      StoredActor(remote, s, a, t);
    }
    if a.MarkByte? { MarkedWereStored(remote, s, a); }
    if a.DropMap? {
      assert ActorStored(remote, s, s.actors[a.t]);
      forall b | b in Blocks(remote) ensures Good(remote, s', b) { BlockInMap(remote, b); }
    }
  }

  // ----- what was invalidated stays unavailable -----

  /** Clients of the image are served block b from the local file. */
  ghost predicate Available(s: State, img: nat, b: nat)
    requires img < |s.current|
  {
    s.current[img] < 0 || (s.current[img] < |s.maps| && b in s.maps[s.current[img]])
  }

  /** No block is available that was found bad and not fetched and marked again since. */
  ghost predicate Kept(s: State) {
    |s.invalid| == |s.current| && forall img, b :: 0 <= img < |s.current| && b in s.invalid[img] ==>
      !Available(s, img, b)
  }

  /**
   The steps that bring a block found bad back, or leave it: dropping a map that is no longer complete
   because something was cleared behind the scan; clearing in one map what another image, or the image
   itself by now, serves by another map or by none; giving up because the map was dropped before it could
   be grabbed; and marking for a reply what was cleared since the reply was stored.
   */
  ghost predicate Lossy(remote: Data, s: State, a: Action)
    requires Shape(remote, s) && Enabled(remote, s, a)
  {
    match a
    case DropMap(t) =>
      var c := s.actors[t];
      assert ActorShape(remote, s, c);
      s.current[c.img] == c.k && !(Blocks(remote) <= s.maps[c.k])
    case GiveUp(_, _) => true
    case ClearByte(t, pos) =>
      var c := s.actors[t];
      assert ActorShape(remote, s, c);
      exists img, b :: 0 <= img < |s.current| && s.current[img] != c.k && b in c.todo * InByte(remote, pos)
        && Available(s, img, b)
    case MarkByte(t, pos) =>
      s.actors[t].k in s.current && MarkedBy(remote, s.actors[t], pos) * StaleBlocks(s) != {}
    case _ => false
  }

  /** Where a scan has been, a block is marked, or was invalidated since, or the image has another map by now. */
  ghost predicate ScanOk(remote: Data, s: State, c: Actor) {
    c.Scanning? && c.img < |s.current| && c.k < |s.maps| && |s.invalid| == |s.current| ==>
      forall b :: b in Blocks(remote) && b / 8 < c.pos ==>
        b in s.maps[c.k] || s.current[c.img] != c.k || b in s.invalid[c.img]
  }

  ghost predicate InvalidInv(remote: Data, s: State) {
    && Shape(remote, s)
    && (forall img :: 0 <= img < |s.current| ==> s.invalid[img] <= Blocks(remote))
    && (forall img, i :: 0 <= img < |s.current| && i in s.stale ==> i / BLOCK in s.invalid[img])
    && (forall t :: 0 <= t < |s.actors| ==> ScanOk(remote, s, s.actors[t]))
  }

  lemma ScanStaysMarking(remote: Data, s: State, a: Action, t: nat)
    requires InvalidInv(remote, s) && Enabled(remote, s, a) && t < |s.actors| && (a.MarkByte? || a.ClearByte?)
    ensures t < |Apply(remote, s, a).actors| && ScanOk(remote, Apply(remote, s, a), Apply(remote, s, a).actors[t])
  {
    assert ScanOk(remote, s, s.actors[t]) && ActorShape(remote, s, s.actors[t]) && ActorShape(remote, s, s.actors[a.t]);
  }

  lemma ScanStays(remote: Data, s: State, a: Action, t: nat)
    requires InvalidInv(remote, s) && Enabled(remote, s, a) && t < |s.actors|
    ensures t < |Apply(remote, s, a).actors| && ScanOk(remote, Apply(remote, s, a), Apply(remote, s, a).actors[t])
  {
    assert ScanOk(remote, s, s.actors[t]) && ActorShape(remote, s, s.actors[t]);
    if a.MarkByte? || a.ClearByte? { ScanStaysMarking(remote, s, a, t); }
  }

  lemma KeepsInvalidInv(remote: Data, s: State, a: Action)
    requires InvalidInv(remote, s) && Enabled(remote, s, a)
    ensures InvalidInv(remote, Apply(remote, s, a))
  {
    var s' := Apply(remote, s, a);
    KeepsShape(remote, s, a);
    forall t | 0 <= t < |s'.actors| ensures ScanOk(remote, s', s'.actors[t]) {
      ScanStays(remote, s, a, t);
    }
    if a.ClearByte? { assert ActorShape(remote, s, s.actors[a.t]); }
  }

  lemma KeptClear(remote: Data, s: State, a: Action)
    requires InvalidInv(remote, s) && Kept(s) && Enabled(remote, s, a) && a.ClearByte?
    ensures Kept(Apply(remote, s, a)) <==> !Lossy(remote, s, a)
  {
    var s', c := Apply(remote, s, a), s.actors[a.t];
    assert ActorShape(remote, s, c);
    if Lossy(remote, s, a) {
      var img, b :| 0 <= img < |s.current| && s.current[img] != c.k && b in c.todo * InByte(remote, a.pos)
        && Available(s, img, b);
      assert b in s'.invalid[img] && Available(s', img, b);
    }
  }

  lemma KeptMark(remote: Data, s: State, a: Action)
    requires InvalidInv(remote, s) && Kept(s) && Enabled(remote, s, a) && a.MarkByte?
    ensures Kept(Apply(remote, s, a)) <==> !Lossy(remote, s, a)
  {
    var s', c := Apply(remote, s, a), s.actors[a.t];
    assert ActorShape(remote, s, c);
    if Lossy(remote, s, a) {
      var img :| 0 <= img < |s.current| && s.current[img] == c.k;
      var b :| b in MarkedBy(remote, c, a.pos) * StaleBlocks(s);
      assert b in s'.invalid[img] && Available(s', img, b);
    } else {
      forall img, b | 0 <= img < |s'.current| && b in s'.invalid[img] ensures !Available(s', img, b) {
        assert !Available(s, img, b);
        assert s.current[img] == c.k ==> b !in MarkedBy(remote, c, a.pos) * StaleBlocks(s);
      }
    }
  }

  lemma KeptDrop(remote: Data, s: State, a: Action)
    requires |remote| % BLOCK == 0 && InvalidInv(remote, s) && Kept(s) && Enabled(remote, s, a) && a.DropMap?
    ensures Kept(Apply(remote, s, a)) <==> !Lossy(remote, s, a)
  {
    var s', c := Apply(remote, s, a), s.actors[a.t];
    assert ActorShape(remote, s, c) && ScanOk(remote, s, c);
    if Lossy(remote, s, a) {
      var b :| b in Blocks(remote) && b !in s.maps[c.k];
      BlockInMap(remote, b);
      assert b in s'.invalid[c.img] && Available(s', c.img, b);
    } else if s.current[c.img] == c.k {
      assert forall b :: b in s.invalid[c.img] ==> b in Blocks(remote);
      assert s.invalid[c.img] == {};
    }
  }

  /** A step brings an invalidated block back exactly if it is one of the lossy ones. */
  lemma KeptExactlyIf(remote: Data, s: State, a: Action)
    requires |remote| % BLOCK == 0 && InvalidInv(remote, s) && Kept(s) && Enabled(remote, s, a)
    ensures Kept(Apply(remote, s, a)) <==> !Lossy(remote, s, a)
  {
    match a {
      case ClearByte(_, _) => KeptClear(remote, s, a);
      case DropMap(_) => KeptDrop(remote, s, a);
      case GiveUp(img, blocks) =>
        var b :| b in blocks;
        assert b in Apply(remote, s, a).invalid[img] && Available(Apply(remote, s, a), img, b);
      case MarkByte(_, _) => KeptMark(remote, s, a);
      case Alloc(img) => assert s.invalid[img] == {};
      case _ =>
    }
  }

  // ----- whole runs -----

  /** Loaded images, each with the file's map or, if the file was complete, without one. */
  ghost predicate Loaded(remote: Data, s: State) {
    && Shape(remote, s) && s.damaged == s.stale == {} && s.sawNone == (-1 in s.current)
    && (forall img :: 0 <= img < |s.current| ==> s.invalid[img] == {})
    && (forall t :: 0 <= t < |s.actors| ==> s.actors[t].Resting?)
    && (forall k, b :: 0 <= k < |s.maps| && b in s.maps[k] ==> Good(remote, s, b))
    && (s.sawNone ==> Complete(remote, s))
  }

  ghost predicate Steps(remote: Data, s: State, a: Action, s': State) {
    Shape(remote, s) && Enabled(remote, s, a) && s' == Apply(remote, s, a)
  }

  ghost predicate LossyStep(remote: Data, s: State, a: Action) {
    Shape(remote, s) && Enabled(remote, s, a) && Lossy(remote, s, a)
  }

  ghost function Init(remote: Data): State -> bool { (s: State) => Loaded(remote, s) }

  ghost function Next(remote: Data): (State, Action, State) -> bool {
    (s: State, a: Action, s': State) => Steps(remote, s, a, s')
  }

  ghost function Inv(remote: Data): State -> bool { (s: State) => StoredInv(remote, s) && InvalidInv(remote, s) }

  ghost function Keeps(): State -> bool { (s: State) => Kept(s) }

  ghost function Loses(remote: Data): (State, Action) -> bool { (s: State, a: Action) => LossyStep(remote, s, a) }

  /** A run: the states and the actions between them. */
  ghost predicate IsTrace(remote: Data, ss: seq<State>, acts: seq<Action>) {
    Runs.IsTrace(Init(remote), Next(remote), ss, acts)
  }

  lemma StepsBreak(remote: Data)
    requires |remote| % BLOCK == 0
    ensures Runs.Breaks(Next(remote), Inv(remote), Keeps(), Loses(remote))
    ensures forall s :: Init(remote)(s) ==> Inv(remote)(s) && Keeps()(s)
  {
    forall s, a, s' | Inv(remote)(s) && Next(remote)(s, a, s')
      ensures Inv(remote)(s') && (Keeps()(s) ==> (Keeps()(s') <==> !Loses(remote)(s, a))) {
      KeepsStored(remote, s, a);
      KeepsInvalidInv(remote, s, a);
      if Kept(s) { KeptExactlyIf(remote, s, a); }
    }
  }

  lemma TraceInv(remote: Data, ss: seq<State>, acts: seq<Action>, i: nat)
    requires |remote| % BLOCK == 0 && IsTrace(remote, ss, acts) && i < |ss|
    ensures StoredInv(remote, ss[i]) && InvalidInv(remote, ss[i])
    ensures (forall j :: 0 <= j < i ==> !LossyStep(remote, ss[j], acts[j])) ==> Kept(ss[i])
  {
    StepsBreak(remote);
    Runs.TraceInv(Init(remote), Next(remote), Inv(remote), Keeps(), Loses(remote), ss, acts, i);
    assert Inv(remote)(ss[i]) && (Keeps()(ss[i]) ==> Kept(ss[i]));
  }

  /**
   In every run, every byte of a block marked in any map is the uplink's unless damaged since it was
   stored; and so is every byte of the file once some image had no map.
   */
  lemma MarkedIsRemote(remote: Data, ss: seq<State>, acts: seq<Action>, i: nat)
    requires |remote| % BLOCK == 0 && IsTrace(remote, ss, acts) && i < |ss|
    ensures var s := ss[i];
      && (forall k, b :: 0 <= k < |s.maps| && b in s.maps[k] ==> Good(remote, s, b))
      && (s.sawNone ==> Complete(remote, s))
      && forall img :: 0 <= img < |s.current| && s.current[img] == -1 ==> s.sawNone
  {
    TraceInv(remote, ss, acts, i);
  }

  /**
   In every run: no block found bad ever is available without being fetched and marked again, if and only
   if no map is dropped after something was cleared in it behind the scan, no block is cleared in one map
   while some image serves it by another or by none, no invalidation gives up for lack of a map, and no
   reply is marked that was stored before a clearing of a block it marks.
   */
  lemma InvalidatedStaysOutExactlyIf(remote: Data, ss: seq<State>, acts: seq<Action>)
    requires |remote| % BLOCK == 0 && IsTrace(remote, ss, acts)
    ensures (forall i :: 0 <= i < |ss| ==> Kept(ss[i])) <==>
      (forall i :: 0 <= i < |acts| ==> !LossyStep(remote, ss[i], acts[i]))
  {
    StepsBreak(remote);
    Runs.GoodExactlyIf(Init(remote), Next(remote), Inv(remote), Keeps(), Loses(remote), ss, acts);
    assert forall i :: 0 <= i < |ss| ==> (Keeps()(ss[i]) <==> Kept(ss[i]));
    assert forall i :: 0 <= i < |acts| ==> (Loses(remote)(ss[i], acts[i]) <==> LossyStep(remote, ss[i], acts[i]));
  }

  // ----- what it means that a byte is stale -----

  predicate Writes(s: State, a: Action, i: nat) {
    && a.Write? && a.t < |s.actors| && s.actors[a.t].Writing?
    && 0 <= i - s.actors[a.t].start - s.actors[a.t].done < a.n
  }

  /** The block of byte i is found bad: cleared, or to be cleared but there is no map. */
  ghost predicate Clears(remote: Data, s: State, a: Action, i: nat) {
    || (a.ClearByte? && a.t < |s.actors| && s.actors[a.t].Clearing?
        && i / BLOCK in s.actors[a.t].todo * InByte(remote, a.pos))
    || (a.GiveUp? && i / BLOCK in a.blocks)
  }

  /** Byte i is stored again after step p. */
  ghost predicate StoredAgain(ss: seq<State>, acts: seq<Action>, p: nat, n: nat, i: nat)
    requires n <= |acts| < |ss|
  {
    exists m :: p < m < n && Writes(ss[m], acts[m], i)
  }

  lemma StaleStep(remote: Data, s: State, a: Action, i: nat)
    requires Shape(remote, s) && Enabled(remote, s, a) && i < |remote|
    ensures i in Apply(remote, s, a).stale <==> Clears(remote, s, a, i) || (i in s.stale && !Writes(s, a, i))
  {
    if a.Write? || a.ClearByte? { assert ActorShape(remote, s, s.actors[a.t]); }
  }

  /** A byte is stale exactly if its block was found bad and the byte not stored again since. */
  lemma {:induction false} StaleExactlyIf(remote: Data, ss: seq<State>, acts: seq<Action>, n: nat, i: nat)
    requires IsTrace(remote, ss, acts) && n < |ss| && i < |remote|
    ensures i in ss[n].stale <==>
      exists p :: 0 <= p < n && Clears(remote, ss[p], acts[p], i) && !StoredAgain(ss, acts, p, n, i)
  {
    if n > 0 {
      var l := n - 1;
      StaleExactlyIf(remote, ss, acts, l, i);
      assert Next(remote)(ss[l], acts[l], ss[l + 1]);
      StaleStep(remote, ss[l], acts[l], i);
      forall p | 0 <= p < l
        ensures StoredAgain(ss, acts, p, n, i) <==> StoredAgain(ss, acts, p, l, i) || Writes(ss[l], acts[l], i) {
      }
      assert !StoredAgain(ss, acts, l, n, i);
    }
  }

  /** The thread has stored byte i of its reply. */
  predicate HasStored(c: Actor, i: nat) {
    (c.Writing? && c.start <= i < c.start + c.done) || (c.Marking? && c.start <= i < c.end)
  }

  /** The thread had stored byte i when its block was found bad at step p. */
  ghost predicate OverTaken(remote: Data, ss: seq<State>, acts: seq<Action>, p: nat, t: nat, i: nat)
    requires p < |acts| < |ss|
  {
    Clears(remote, ss[p], acts[p], i) && t < |ss[p].actors| && HasStored(ss[p].actors[t], i)
  }

  lemma {:induction false} StaleWasOvertaken(remote: Data, ss: seq<State>, acts: seq<Action>, n: nat, t: nat, i: nat)
    requires IsTrace(remote, ss, acts) && n < |ss| && i in ss[n].stale && i < |remote|
    requires t < |ss[n].actors| && HasStored(ss[n].actors[t], i)
    ensures exists p :: 0 <= p < n && OverTaken(remote, ss, acts, p, t, i)
  {
    if n > 0 {
      var l := n - 1;
      assert Next(remote)(ss[l], acts[l], ss[l + 1]);
      StaleStep(remote, ss[l], acts[l], i);
      assert t < |ss[l].actors| && ActorShape(remote, ss[l], ss[l].actors[t]);
      if Clears(remote, ss[l], acts[l], i) {
        assert OverTaken(remote, ss, acts, l, t, i);
      } else {
        StaleWasOvertaken(remote, ss, acts, l, t, i);
      }
    }
  }

  /** A mark brings a bad block back only for a reply that was stored, there, before the block was found bad. */
  lemma LateMark(remote: Data, ss: seq<State>, acts: seq<Action>, n: nat)
    requires IsTrace(remote, ss, acts) && n < |acts| && acts[n].MarkByte? && LossyStep(remote, ss[n], acts[n])
    ensures exists p: nat, i: nat ::
      p < n && OverTaken(remote, ss, acts, p, acts[n].t, i)
      && i / BLOCK in MarkedBy(remote, ss[n].actors[acts[n].t], acts[n].pos)
  {
    var s, a := ss[n], acts[n];
    var c := s.actors[a.t];
    assert ActorShape(remote, s, c);
    var b :| b in MarkedBy(remote, c, a.pos) * StaleBlocks(s);
    var i :| i in s.stale && i / BLOCK == b;
    assert HasStored(c, i);
    StaleWasOvertaken(remote, ss, acts, n, a.t, i);
  }

  /**
   What `net.c` serves from the local file: if every block of the request, widened to 4 KiB borders, is
   marked in the map the client thread holds, or if there was no map to get, then every byte is the
   uplink's unless damaged since it was stored.
   */
  lemma ServedIsRemote(remote: Data, ss: seq<State>, acts: seq<Action>, n: nat, held: int, offset: nat, size: nat)
    requires |remote| % BLOCK == 0 && IsTrace(remote, ss, acts) && n < |ss| && offset + size <= |remote|
    requires held == -1 ==> ss[n].sawNone
    requires held != -1 ==> 0 <= held < |ss[n].maps|
    requires held != -1 ==> forall b: nat :: offset / BLOCK <= b && BLOCK * b < offset + size ==> b in ss[n].maps[held]
    ensures |ss[n].local| == |remote|
    ensures forall i :: offset <= i < offset + size ==> ss[n].local[i] == remote[i] || i in ss[n].damaged
    ensures (forall i :: offset <= i < offset + size ==> i !in ss[n].damaged) ==>
      ss[n].local[offset..offset + size] == remote[offset..offset + size]
  {
    var s := ss[n];
    TraceInv(remote, ss, acts, n);
    forall i | offset <= i < offset + size ensures s.local[i] == remote[i] || i in s.damaged {
      var b := i / BLOCK;
      assert BLOCK * b <= i < BLOCK * (b + 1);
      assert held == -1 ==> b in Blocks(remote);
      assert held != -1 ==> b in s.maps[held];
      assert Good(remote, s, b) && Stored(remote, s, i);
    }
  }

  /**
   Without a lossy step, only damage not yet found out is served: a byte of an available block that is
   not the uplink's was damaged since it was stored, and stored again after every time its block was
   found bad.
   */
  lemma ServedDamageIsUndetected(remote: Data, ss: seq<State>, acts: seq<Action>, n: nat, img: nat, i: nat)
    requires |remote| % BLOCK == 0 && IsTrace(remote, ss, acts) && n < |ss| && i < |remote| && img < |ss[n].current|
    requires forall j :: 0 <= j < n ==> !LossyStep(remote, ss[j], acts[j])
    requires Available(ss[n], img, i / BLOCK)
    ensures |ss[n].local| == |remote| && |ss[n].invalid| == |ss[n].current|
    ensures i / BLOCK !in ss[n].invalid[img]
    ensures ss[n].local[i] == remote[i] || i in ss[n].damaged
    ensures forall p :: 0 <= p < n && Clears(remote, ss[p], acts[p], i) ==> StoredAgain(ss, acts, p, n, i)
  {
    var s, b := ss[n], i / BLOCK;
    TraceInv(remote, ss, acts, n);
    assert BLOCK * b <= i < BLOCK * (b + 1) && b in Blocks(remote);
    assert Good(remote, s, b) && Stored(remote, s, i);
    StaleExactlyIf(remote, ss, acts, n, i);
  }

  // ----- invalidations do get lost -----

  /** One image of one block, complete but for its map. */
  ghost function OneBlock(remote: Data): State { State(remote, [{0}], [0], [Resting, Resting], {}, {}, [{}], false) }

  lemma OneBlockLoaded(remote: Data)
    requires |remote| == BLOCK
    ensures Blocks(remote) == InByte(remote, 0) == {0} && NumMapBytes(remote) == 1
    ensures IsTrace(remote, [OneBlock(remote)], [])
  {
    assert Blocks(remote) == {0};
    assert Loaded(remote, OneBlock(remote));
  }

  lemma Then(remote: Data, ss: seq<State>, acts: seq<Action>, a: Action) returns (ss': seq<State>, acts': seq<Action>)
    requires IsTrace(remote, ss, acts) && Shape(remote, ss[|acts|]) && Enabled(remote, ss[|acts|], a)
    ensures IsTrace(remote, ss', acts') && acts' == acts + [a] && Shape(remote, ss'[|acts'|])
    ensures ss' == ss + [Apply(remote, ss[|acts|], a)]
  {
    ss', acts' := ss + [Apply(remote, ss[|acts|], a)], acts + [a];
    forall i | 0 <= i < |acts'| ensures Next(remote)(ss'[i], acts'[i], ss'[i + 1]) {
      assert i < |acts| ==> Next(remote)(ss[i], acts[i], ss[i + 1]);
    }
    KeepsShape(remote, ss[|acts|], a);
  }

  /** Block 0 was found bad, not a byte of it fetched since, and it is served all the same. */
  ghost predicate Lost(remote: Data, s: State) {
    && |s.invalid| == |s.current| == 1 && 0 in s.invalid[0] && Available(s, 0, 0)
    && s.stale == BytesOf(remote, {0})
  }

  /** The common start: thread 0 has seen the map complete, then thread 1 grabs it to clear the block. */
  lemma ScanThenGrab(remote: Data) returns (ss: seq<State>, acts: seq<Action>)
    requires |remote| == BLOCK
    ensures IsTrace(remote, ss, acts) && acts == [Scan(0, 0), ScanByte(0), Invalidate(1, 0, {0})]
    ensures Shape(remote, ss[3])
    ensures ss[3] == State(remote, [{0}], [0], [Scanning(0, 0, 1), Clearing(0, 0, {0})], {}, {}, [{}], false)
  {
    OneBlockLoaded(remote);
    ss, acts := [OneBlock(remote)], [];
    ss, acts := Then(remote, ss, acts, Scan(0, 0));
    ss, acts := Then(remote, ss, acts, ScanByte(0));
    ss, acts := Then(remote, ss, acts, Invalidate(1, 0, {0}));
  }

  /** A block cleared behind a scan is available again once the scan drops the map. */
  lemma DropLoses(remote: Data) returns (ss: seq<State>, acts: seq<Action>)
    requires |remote| == BLOCK
    ensures IsTrace(remote, ss, acts) && Lost(remote, ss[|acts|])
    ensures acts == [Scan(0, 0), ScanByte(0), Invalidate(1, 0, {0}), ClearByte(1, 0), DropMap(0)]
  {
    OneBlockLoaded(remote);
    ss, acts := ScanThenGrab(remote);
    ss, acts := Then(remote, ss, acts, ClearByte(1, 0));
    assert {0} * InByte(remote, 0) == {0};
    ss, acts := Then(remote, ss, acts, DropMap(0));
  }

  /** A block cleared in a map that was dropped after it was grabbed stays available. */
  lemma StaleClearLoses(remote: Data) returns (ss: seq<State>, acts: seq<Action>)
    requires |remote| == BLOCK
    ensures IsTrace(remote, ss, acts) && Lost(remote, ss[|acts|])
    ensures acts == [Scan(0, 0), ScanByte(0), Invalidate(1, 0, {0}), DropMap(0), ClearByte(1, 0)]
  {
    OneBlockLoaded(remote);
    ss, acts := ScanThenGrab(remote);
    ss, acts := Then(remote, ss, acts, DropMap(0));
    ss, acts := Then(remote, ss, acts, ClearByte(1, 0));
    assert {0} * InByte(remote, 0) == {0};
  }

  /** An invalidation that finds no map, because a scan dropped the one just made for it, is lost. */
  lemma GiveUpLoses(remote: Data) returns (ss: seq<State>, acts: seq<Action>)
    requires |remote| == BLOCK
    ensures IsTrace(remote, ss, acts) && Lost(remote, ss[|acts|])
    ensures acts == [Scan(0, 0), ScanByte(0), DropMap(0), GiveUp(0, {0})]
  {
    OneBlockLoaded(remote);
    ss, acts := [OneBlock(remote)], [];
    ss, acts := Then(remote, ss, acts, Scan(0, 0));
    ss, acts := Then(remote, ss, acts, ScanByte(0));
    ss, acts := Then(remote, ss, acts, DropMap(0));
    ss, acts := Then(remote, ss, acts, GiveUp(0, {0}));
  }

  /** A reply stored before the disk damaged it and the block was cleared is marked after all, with the bad byte. */
  lemma LateMarkLoses(remote: Data, v: int) returns (ss: seq<State>, acts: seq<Action>)
    requires |remote| == BLOCK && v != remote[0]
    ensures IsTrace(remote, ss, acts) && Lost(remote, ss[|acts|]) && ss[|acts|].local == remote[0 := v]
    ensures acts == [Receive(0, 0, 0, BLOCK), Write(0, BLOCK), StopWriting(0), Damage(0, v), Invalidate(1, 0, {0}),
                     ClearByte(1, 0), MarkByte(0, 0)]
  {
    OneBlockLoaded(remote);
    ss, acts := [OneBlock(remote)], [];
    ss, acts := Then(remote, ss, acts, Receive(0, 0, 0, BLOCK));
    ss, acts := Then(remote, ss, acts, Write(0, BLOCK));
    assert ss[2].local == remote;
    ss, acts := Then(remote, ss, acts, StopWriting(0));
    assert MapBytesOf(remote, 0, BLOCK) == {0};
    ss, acts := Then(remote, ss, acts, Damage(0, v));
    ss, acts := Then(remote, ss, acts, Invalidate(1, 0, {0}));
    ss, acts := Then(remote, ss, acts, ClearByte(1, 0));
    assert {0} * InByte(remote, 0) == {0};
    assert ss[6].stale == BytesOf(remote, {0});
    assert 0 in ss[6].stale && 0 in StaleBlocks(ss[6]);
    ss, acts := Then(remote, ss, acts, MarkByte(0, 0));
    assert 0 in MarkedBy(remote, ss[6].actors[0], 0);
  }

  /** What one `pwrite` may do: store some bytes, be interrupted, or fail in a way that may allow another attempt. */
  datatype Outcome = Stored(n: nat) | Interrupted | Full(freed: bool) | Broken(reopened: bool) | Failed

  /** An error whose cause could be removed: space was freed, or the file reopened. */
  predicate Helped(o: Outcome) { o == Full(true) || o == Broken(true) }

  /**
   The writing loop of `handleReceive` on the local file: whatever the writes do, exactly the first `done`
   bytes of the reply are in place afterwards and all other bytes are as before. The loop falls short
   only after an odd result or an error; an error whose cause was removed ends it only if that happened
   before.
   */
  method StoreReply(local: array<int>, start: nat, reply: Data, outcomes: seq<Outcome>) returns (done: nat, calls: nat)
    requires start + |reply| <= local.Length
    modifies local
    ensures done <= |reply| && calls <= |outcomes|
    ensures local[..] == old(local[..start]) + reply[..done] + old(local[start + done..])
    ensures done < |reply| && calls > 0 && outcomes[calls - 1].Stored? ==>
      calls == |outcomes| || outcomes[calls - 1].n == 0 || outcomes[calls - 1].n > |reply| - done
    ensures done < |reply| && calls > 0 && outcomes[calls - 1].Interrupted? ==> calls == |outcomes|
    ensures done < |reply| && calls > 0 && Helped(outcomes[calls - 1]) ==>
      calls == |outcomes| || exists j :: 0 <= j < calls - 1 && Helped(outcomes[j])
  {
    done, calls := 0, 0;
    var tryAgain := true;
    while done < |reply| && calls < |outcomes|
      invariant done <= |reply| && calls <= |outcomes|
      invariant local[..] == old(local[..start]) + reply[..done] + old(local[start + done..])
      invariant tryAgain || exists j :: 0 <= j < calls && Helped(outcomes[j])
    {
      var outcome := outcomes[calls];
      calls := calls + 1;
      match outcome {
        case Stored(n) =>
          if n == 0 || n > |reply| - done {
            break;
          }
          Put(local, start + done, reply[done..done + n]);
          assert reply[..done + n] == reply[..done] + reply[done..done + n];
          done := done + n;
        case Interrupted =>
        case Full(freed) =>
          if !tryAgain || !freed {
            break;
          }
          tryAgain := false;
        case Broken(reopened) =>
          if !tryAgain || !reopened {
            break;
          }
          tryAgain := false;
        case Failed =>
          break;
      }
    }
  }

  method Put(local: array<int>, at: nat, bytes: Data)
    requires at + |bytes| <= local.Length
    modifies local
    ensures local[..] == old(local[..at]) + bytes + old(local[at + |bytes|..])
  {
    for i := 0 to |bytes|
      invariant local[..] == old(local[..at]) + bytes[..i] + old(local[at + i..])
    {
      local[at + i] := bytes[i];
      assert bytes[..i + 1] == bytes[..i] + [bytes[i]];
    }
  }
}
