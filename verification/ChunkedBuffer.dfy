/** The decoder as the code runs it: in place on the caller's buffer, with its fields updated phase by phase. */
module ChunkedBuffer {
  import opened Chunked

  /** memmove for the direction the decoder uses: the source does not lie before the destination. */
  method MoveDown(buf: array<byte>, dst: nat, src: nat, n: nat)
    requires dst <= src && src + n <= buf.Length
    modifies buf
    ensures buf[..dst] == old(buf[..dst])
    ensures buf[dst..dst + n] == old(buf[src..src + n])
    ensures buf[dst + n..] == old(buf[dst + n..])
  {
    for i := 0 to n
      invariant buf[..dst] == old(buf[..dst])
      invariant buf[dst..dst + i] == old(buf[src..src + i])
      invariant buf[dst + i..] == old(buf[dst + i..])
    {
      assert buf[dst + i..][src - dst] == old(buf[dst + i..])[src - dst];
      buf[dst + i] := buf[src + i];
      assert buf[dst + i + 1..] == old(buf[dst + i..])[1..];
    }
  }

  /** How a phase ended: on to the next phase, out of input, bad input, or end of the message. */
  datatype Outcome = Continue | Starved | Bad | Finished

  /** Some phases took decoder d over input s to decoder d', with output out and input s' unread. */
  ghost predicate Went(d: Dec, s: seq<byte>, out: seq<byte>, o: Outcome, d': Dec, s': seq<byte>) {
    match o
    case Continue => Decode(d, s) == Prepend(out, Decode(d', s'))
    case Starved => s' == [] && Decode(d, s) == Result(Incomplete, d', out, [])
    case Bad => Decode(d, s) == Result(Malformed, d', out, s')
    case Finished => Decode(d, s) == Result(Complete, d', out, s')
  }

  ghost predicate Scanned(d: Dec, s: seq<byte>, o: Outcome, d': Dec, s': seq<byte>) {
    Went(d, s, [], o, d', s')
  }

  lemma WentOn(d: Dec, s: seq<byte>, out: seq<byte>, d1: Dec, s1: seq<byte>, out1: seq<byte>, o: Outcome, d2: Dec,
    s2: seq<byte>)
    requires Went(d, s, out, Continue, d1, s1) && Went(d1, s1, out1, o, d2, s2)
    ensures Went(d, s, out + out1, o, d2, s2)
  {
  }

  /** The decoder after n bytes of the current chunk's data. */
  function AfterData(d: Dec, n: nat): Dec
    requires n <= d.left
  {
    if n == d.left then d.(left := 0, phase := ChunkCrlf) else d.(left := d.left - n)
  }

  lemma DataStep(d: Dec, s: seq<byte>, n: nat)
    requires d.phase == ChunkData && d.left > 0 && n <= |s| && n <= d.left
    ensures Decode(d, s) == Prepend(s[..n], Decode(AfterData(d, n), s[n..]))
  {
    var a, b := s[..n], s[n..];
    assert a + b == s;
    ReadData(d, a);
    DecodeSplit(d, a, b);
  }

  class Decoder {
    var bytesLeft: nat
    var consumeTrailer: bool
    var hexCount: nat
    var phase: Phase

    constructor (trailer: bool)
      ensures Value() == Fresh(trailer)
    {
      bytesLeft, consumeTrailer, hexCount, phase := 0, trailer, 0, ChunkSize;
    }

    ghost function Value(): Dec
      reads this
    {
      Dec(bytesLeft, consumeTrailer, hexCount, phase)
    }

    method ScanSize(buf: array<byte>, start: nat, bufsz: nat) returns (src: nat, o: Outcome)
      requires phase == ChunkSize && Valid(Value()) && start <= bufsz <= buf.Length
      modifies this
      ensures start <= src <= bufsz
      ensures o == Continue || o == Starved || o == Bad
      ensures o == Continue ==> phase == ChunkExt
      ensures Valid(Value())
      ensures Scanned(old(Value()), buf[start..bufsz], o, Value(), buf[src..bufsz])
    {
      src := start;
      ghost var d, s := Value(), buf[start..bufsz];
      while src < bufsz && Hex(buf[src]) != -1
        invariant start <= src <= bufsz && phase == ChunkSize && Valid(Value())
        invariant Decode(d, s) == Decode(Value(), s[src - start..])
        decreases bufsz - src
      {
        assert s[src - start..][1..] == s[src + 1 - start..] && s[src - start..][0] == buf[src];
        if hexCount == MAX_HEX {
          o := Bad;
          assert buf[src..bufsz] == s[src - start..];
          return;
        }
        AppendDigit(buf[src]);
        src := src + 1;
      }
      assert buf[src..bufsz] == s[src - start..];
      if src == bufsz { return src, Starved; }
      if hexCount == 0 { return src, Bad; }
      ghost var v := Value();
      hexCount, phase := 0, ChunkExt;
      assert Step(v, buf[src]) == Step(Value(), buf[src]);
      o := Continue;
    }

    method AppendDigit(c: byte)
      requires phase == ChunkSize && Valid(Value()) && Hex(c) != -1 && hexCount < MAX_HEX
      modifies this
      ensures phase == ChunkSize && Valid(Value()) && Step(old(Value()), c) == Take(Value())
    {
      StepKeepsValid(Value(), c);
      bytesLeft, hexCount := (bytesLeft * 16 + Hex(c)) % SIZE_LIMIT, hexCount + 1;
    }

    method ScanExt(buf: array<byte>, start: nat, bufsz: nat) returns (src: nat, o: Outcome)
      requires phase == ChunkExt && Valid(Value()) && start <= bufsz <= buf.Length
      modifies this
      ensures start <= src <= bufsz
      ensures o == Continue || o == Starved || o == Finished
      ensures o == Continue ==> start < src
      ensures Valid(Value())
      ensures Scanned(old(Value()), buf[start..bufsz], o, Value(), buf[src..bufsz])
    {
      src := start;
      while src < bufsz && buf[src] != LF
        invariant start <= src <= bufsz
        invariant Decode(old(Value()), buf[start..bufsz]) == Decode(old(Value()), buf[src..bufsz])
        decreases bufsz - src
      {
        assert buf[src..bufsz][1..] == buf[src + 1..bufsz];
        src := src + 1;
      }
      if src == bufsz { return src, Starved; }
      assert buf[src..bufsz][1..] == buf[src + 1..bufsz];
      src := src + 1;
      if bytesLeft == 0 {
        if !consumeTrailer { return src, Finished; }
        phase := TrailerHead;
      } else {
        phase := ChunkData;
      }
      o := Continue;
    }

    /** Copies what the current chunk still owes, or all there is, down to dst. */
    method CopyData(buf: array<byte>, dst: nat, start: nat, bufsz: nat) returns (src: nat, o: Outcome)
      requires phase == ChunkData && Valid(Value()) && dst <= start <= bufsz <= buf.Length
      modifies this, buf
      ensures start <= src <= bufsz && src - start <= old(bytesLeft)
      ensures o == (if src - start < old(bytesLeft) then Starved else Continue)
      ensures o == Starved ==> src == bufsz
      ensures Valid(Value()) && Value() == AfterData(old(Value()), src - start)
      ensures buf[..dst] == old(buf[..dst])
      ensures buf[dst..dst + (src - start)] == old(buf[start..src])
      ensures buf[src..] == old(buf[src..])
    {
      var avail := bufsz - start;
      var n := if avail < bytesLeft then avail else bytesLeft;
      src := start + n;
      assert buf[dst + n..][start - dst..] == buf[src..];
      if dst != start {
        MoveDown(buf, dst, start, n);
        assert buf[src..] == buf[dst + n..][start - dst..];
      }
      bytesLeft := bytesLeft - n;
      if bytesLeft > 0 {
        o := Starved;
      } else {
        phase, o := ChunkCrlf, Continue;
      }
    }

    method ScanCrlf(buf: array<byte>, start: nat, bufsz: nat) returns (src: nat, o: Outcome)
      requires phase == ChunkCrlf && Valid(Value()) && start <= bufsz <= buf.Length
      modifies this
      ensures start <= src <= bufsz
      ensures o == Continue || o == Starved || o == Bad
      ensures o == Continue ==> start < src
      ensures Valid(Value())
      ensures Scanned(old(Value()), buf[start..bufsz], o, Value(), buf[src..bufsz])
    {
      src := start;
      while src < bufsz && buf[src] == CR
        invariant start <= src <= bufsz
        invariant Decode(old(Value()), buf[start..bufsz]) == Decode(old(Value()), buf[src..bufsz])
        decreases bufsz - src
      {
        assert buf[src..bufsz][1..] == buf[src + 1..bufsz];
        src := src + 1;
      }
      if src == bufsz { return src, Starved; }
      assert buf[src..bufsz][1..] == buf[src + 1..bufsz];
      if buf[src] != LF { return src, Bad; }
      src, phase, o := src + 1, ChunkSize, Continue;
    }

    method ScanTrailerHead(buf: array<byte>, start: nat, bufsz: nat) returns (src: nat, o: Outcome)
      requires phase == TrailerHead && Valid(Value()) && start <= bufsz <= buf.Length
      modifies this
      ensures start <= src <= bufsz
      ensures o == Continue || o == Starved || o == Finished
      ensures o == Continue ==> start < src
      ensures Valid(Value())
      ensures Scanned(old(Value()), buf[start..bufsz], o, Value(), buf[src..bufsz])
    {
      src := start;
      while src < bufsz && buf[src] == CR
        invariant start <= src <= bufsz
        invariant Decode(old(Value()), buf[start..bufsz]) == Decode(old(Value()), buf[src..bufsz])
        decreases bufsz - src
      {
        assert buf[src..bufsz][1..] == buf[src + 1..bufsz];
        src := src + 1;
      }
      if src == bufsz { return src, Starved; }
      assert buf[src..bufsz][1..] == buf[src + 1..bufsz];
      if buf[src] == LF { return src + 1, Finished; }
      src, phase, o := src + 1, TrailerMiddle, Continue;
    }

    method ScanTrailerMiddle(buf: array<byte>, start: nat, bufsz: nat) returns (src: nat, o: Outcome)
      requires phase == TrailerMiddle && Valid(Value()) && start <= bufsz <= buf.Length
      modifies this
      ensures start <= src <= bufsz
      ensures o == Continue || o == Starved
      ensures o == Continue ==> start < src
      ensures Valid(Value())
      ensures Scanned(old(Value()), buf[start..bufsz], o, Value(), buf[src..bufsz])
    {
      src := start;
      while src < bufsz && buf[src] != LF
        invariant start <= src <= bufsz
        invariant Decode(old(Value()), buf[start..bufsz]) == Decode(old(Value()), buf[src..bufsz])
        decreases bufsz - src
      {
        assert buf[src..bufsz][1..] == buf[src + 1..bufsz];
        src := src + 1;
      }
      if src == bufsz { return src, Starved; }
      assert buf[src..bufsz][1..] == buf[src + 1..bufsz];
      src, phase, o := src + 1, TrailerHead, Continue;
    }

    method ScanPhase(buf: array<byte>, start: nat, bufsz: nat) returns (src: nat, o: Outcome)
      requires phase != ChunkData && Valid(Value()) && start <= bufsz <= buf.Length
      modifies this
      ensures start <= src <= bufsz
      ensures o == Continue ==> start < src || (old(phase) == ChunkSize && phase == ChunkExt)
      ensures Valid(Value())
      ensures Scanned(old(Value()), buf[start..bufsz], o, Value(), buf[src..bufsz])
    {
      match phase {
        case ChunkSize => src, o := ScanSize(buf, start, bufsz);
        case ChunkExt => src, o := ScanExt(buf, start, bufsz);
        case ChunkCrlf => src, o := ScanCrlf(buf, start, bufsz);
        case TrailerHead => src, o := ScanTrailerHead(buf, start, bufsz);
        case TrailerMiddle => src, o := ScanTrailerMiddle(buf, start, bufsz);
      }
    }

    /** One round of the decoder's loop. */
    method Round(buf: array<byte>, dst: nat, start: nat, bufsz: nat) returns (dst': nat, src: nat, o: Outcome)
      requires Valid(Value()) && dst <= start <= bufsz <= buf.Length
      modifies this, buf
      ensures start <= src <= bufsz && dst <= dst' <= src
      ensures o == Continue ==> start < src || (old(phase) == ChunkSize && phase == ChunkExt)
      ensures Valid(Value())
      ensures Went(old(Value()), old(buf[start..bufsz]), buf[dst..dst'], o, Value(), old(buf[src..bufsz]))
      ensures buf[..dst] == old(buf[..dst]) && buf[src..] == old(buf[src..])
    {
      if phase == ChunkData {
        ghost var d, s := Value(), buf[start..bufsz];
        src, o := CopyData(buf, dst, start, bufsz);
        dst' := dst + (src - start);
        ghost var n := src - start;
        DataStep(d, s, n);
        assert s[..n] == old(buf[start..src]) && s[n..] == old(buf[src..bufsz]);
        assert o == Starved ==> s[..n] + [] == s[..n];
      } else {
        src, o := ScanPhase(buf, start, bufsz);
        dst' := dst;
        assert buf[dst..dst'] == [];
      }
    }

    /** The decoder's loop: rounds until one of them cannot go on. */
    method Rounds(buf: array<byte>, bufsz: nat) returns (dst: nat, src: nat, o: Outcome)
      requires Valid(Value()) && bufsz <= buf.Length
      modifies this, buf
      ensures dst <= src <= bufsz && Valid(Value()) && o != Continue
      ensures Went(old(Value()), old(buf[..bufsz]), buf[..dst], o, Value(), buf[src..bufsz])
      ensures buf[bufsz..] == old(buf[bufsz..])
    {
      dst, src, o := 0, 0, Continue;
      ghost var d, input := Value(), buf[..bufsz];
      assert buf[..dst] == [] && buf[src..bufsz] == input;
      while o == Continue
        invariant 0 <= dst <= src <= bufsz && Valid(Value())
        invariant Went(d, input, buf[..dst], o, Value(), buf[src..bufsz])
        invariant buf[bufsz..] == old(buf[bufsz..])
        decreases o == Continue, bufsz - src, phase == ChunkSize
      {
        ghost var d1, s1, out := Value(), buf[src..bufsz], buf[..dst];
        ghost var from, tail := dst, buf[bufsz..];
        label before:
        dst, src, o := Round(buf, dst, src, bufsz);
        ghost var more := buf[from..dst];
        assert old@before(buf[src..bufsz]) == old@before(buf[src..])[..bufsz - src] == buf[src..bufsz];
        assert buf[bufsz..] == buf[src..][bufsz - src..] == tail;
        WentOn(d, input, out, d1, s1, more, o, Value(), buf[src..bufsz]);
        assert buf[..dst] == buf[..from] + more;
      }
    }

    /**
     `phr_decode_chunked`: the decoded bytes end up at the front of the buffer, followed by the unread
     input; nothing past bufsz is touched.
     */
    method DecodeChunked(buf: array<byte>, bufsz: nat) returns (ret: int, size: nat)
      requires Valid(Value()) && bufsz <= buf.Length
      modifies this, buf
      ensures Valid(Value())
      ensures var r := old(Decode(Value(), buf[..bufsz]));
        && Value() == r.dec
        && size == |r.out| && size + |r.rest| <= bufsz
        && buf[..size] == r.out && buf[size..size + |r.rest|] == r.rest
        && ret == match r.verdict case Incomplete => -2 case Malformed => -1 case Complete => |r.rest|
      ensures buf[bufsz..] == old(buf[bufsz..])
    {
      var dst, src, o := Rounds(buf, bufsz);
      ret := if o == Starved then -2 else if o == Bad then -1 else bufsz - src;
      size := dst;
      assert buf[dst + (bufsz - src)..][src - dst..] == buf[bufsz..];
      if dst != src {
        MoveDown(buf, dst, src, bufsz - src);
        assert buf[bufsz..] == buf[dst + (bufsz - src)..][src - dst..];
      }
    }
  }
}
