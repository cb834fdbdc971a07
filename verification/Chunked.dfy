/**
 The chunked transfer decoder of `picohttpparser.c` (section 4.1 of RFC 7230): what it computes, as a
 machine that reads one byte at a time.
 */
module Chunked {
  import opened Units

  newtype byte = x: int | 0 <= x < 256

  const CR: byte := 13
  const LF: byte := 10
  const SEMICOLON: byte := 59

  /** One past the largest size_t. */
  const SIZE_LIMIT: nat := 0x1_0000_0000_0000_0000
  /** sizeof( size_t ) * 2 */
  const MAX_HEX := 16

  datatype Phase = ChunkSize | ChunkExt | ChunkData | ChunkCrlf | TrailerHead | TrailerMiddle

  datatype Dec = Dec(left: nat, trailer: bool, hex: nat, phase: Phase)

  datatype Verdict = Incomplete | Complete | Malformed

  datatype Result = Result(verdict: Verdict, dec: Dec, out: seq<byte>, rest: seq<byte>)

  datatype Move = Take(dec: Dec) | Emit(dec: Dec) | Finish(dec: Dec) | Fail(dec: Dec)

  /** A zero-filled decoder. */
  function Fresh(trailer: bool): Dec { Dec(0, trailer, 0, ChunkSize) }

  function Hex(c: byte): int {
    if 48 <= c <= 57 then c as int - 48
    else if 65 <= c <= 70 then c as int - 65 + 10
    else if 97 <= c <= 102 then c as int - 97 + 10
    else -1
  }

  function StepExt(d: Dec, c: byte): Move {
    if c != LF then Take(d)
    else if d.left != 0 then Take(d.(phase := ChunkData))
    else if d.trailer then Take(d.(phase := TrailerHead))
    else Finish(d)
  }

  /** What the decoder does with the next byte. A failing byte is not consumed, a finishing one is. */
  function Step(d: Dec, c: byte): Move {
    match d.phase
    case ChunkSize =>
      if Hex(c) == -1 then (if d.hex == 0 then Fail(d) else StepExt(d.(hex := 0, phase := ChunkExt), c))
      else if d.hex == MAX_HEX then Fail(d)
      else Take(d.(left := (d.left * 16 + Hex(c)) % SIZE_LIMIT, hex := d.hex + 1))
    case ChunkExt => StepExt(d, c)
    case ChunkData => if d.left <= 1 then Emit(d.(left := 0, phase := ChunkCrlf)) else Emit(d.(left := d.left - 1))
    case ChunkCrlf => if c == CR then Take(d) else if c == LF then Take(d.(phase := ChunkSize)) else Fail(d)
    case TrailerHead => if c == CR then Take(d) else if c == LF then Finish(d) else Take(d.(phase := TrailerMiddle))
    case TrailerMiddle => if c == LF then Take(d.(phase := TrailerHead)) else Take(d)
  }

  function Prepend(out: seq<byte>, r: Result): Result { r.(out := out + r.out) }

  function Decode(d: Dec, input: seq<byte>): Result
    decreases |input|
  {
    if input == [] then Result(Incomplete, d, [], []) else
    match Step(d, input[0])
    case Take(d') => Decode(d', input[1..])
    case Emit(d') => Prepend([input[0]], Decode(d', input[1..]))
    case Finish(d') => Result(Complete, d', [], input[1..])
    case Fail(d') => Result(Malformed, d', [], input)
  }

  // ---------------------------------------------------------------- the size accumulator

  function Pow16(n: nat): nat { if n == 0 then 1 else 16 * Pow16(n - 1) }

  /** What every decoder reached from a zero-filled one satisfies. */
  predicate Valid(d: Dec) {
    && d.left < SIZE_LIMIT && d.hex <= MAX_HEX
    && (d.phase == ChunkSize ==> d.left < Pow16(d.hex))
    && (d.phase != ChunkSize ==> d.hex == 0)
    && (d.phase == ChunkData ==> d.left > 0)
    && (d.phase.ChunkCrlf? || d.phase.TrailerHead? || d.phase.TrailerMiddle? ==> d.left == 0)
  }

  lemma {:induction false} Pow16Grows(a: nat, b: nat)
    requires a <= b
    ensures 1 <= Pow16(a) <= Pow16(b)
  {
    if b > 0 {
      if a == b { Pow16Grows(a - 1, b - 1); } else { Pow16Grows(a, b - 1); }
    }
  }

  lemma SixteenDigits()
    ensures Pow16(MAX_HEX) == SIZE_LIMIT
  {
    assert Pow16(4) == 0x1_0000;
    assert Pow16(8) == 0x1_0000 * Pow16(4);
    assert Pow16(12) == 0x1_0000 * Pow16(8);
    assert Pow16(16) == 0x1_0000 * Pow16(12);
  }

  /** Appending a digit to the size never wraps around, however the sixteen digits are chosen. */
  lemma DigitFits(left: nat, hex: nat, v: nat)
    requires hex < MAX_HEX && left < Pow16(hex) && v < 16
    ensures left * 16 + v < Pow16(hex + 1) <= SIZE_LIMIT
  {
    Pow16Grows(hex + 1, MAX_HEX);
    SixteenDigits();
    assert Pow16(hex + 1) == 16 * Pow16(hex);
  }

  /** Every step keeps the decoder valid, and the size it accumulates is never reduced modulo 2^64. */
  lemma StepKeepsValid(d: Dec, c: byte)
    requires Valid(d)
    ensures Valid(Step(d, c).dec)
    ensures d.phase == ChunkSize && Hex(c) != -1 && d.hex < MAX_HEX ==> Step(d, c).dec.left == d.left * 16 + Hex(c)
  {
    if d.phase == ChunkSize && Hex(c) != -1 {
      if d.hex < MAX_HEX {
        var n := d.left * 16 + Hex(c);
        DigitFits(d.left, d.hex, Hex(c));
        assert n % SIZE_LIMIT == n;
        assert Step(d, c) == Take(d.(left := n, hex := d.hex + 1));
      }
    } else {
      StepAwayKeepsValid(d, c);
    }
  }

  lemma StepAwayKeepsValid(d: Dec, c: byte)
    requires Valid(d) && (d.phase != ChunkSize || Hex(c) == -1)
    ensures Valid(Step(d, c).dec)
  {
  }

  lemma {:induction false} DecodeKeepsValid(d: Dec, input: seq<byte>)
    requires Valid(d)
    ensures Valid(Decode(d, input).dec)
    decreases |input|
  {
    if input != [] {
      StepKeepsValid(d, input[0]);
      if Step(d, input[0]).Take? || Step(d, input[0]).Emit? { DecodeKeepsValid(Step(d, input[0]).dec, input[1..]); }
    }
  }

  // ---------------------------------------------------------------- decoding in pieces

  /** What decoding a, followed by more input b, gives in terms of the result on a alone. */
  function Resume(r: Result, b: seq<byte>): Result {
    if r.verdict == Incomplete then Prepend(r.out, Decode(r.dec, b)) else r.(rest := r.rest + b)
  }

  lemma {:induction false} DecodeSplit(d: Dec, a: seq<byte>, b: seq<byte>)
    ensures Decode(d, a + b) == Resume(Decode(d, a), b)
    ensures Decode(d, a).verdict == Incomplete ==> Decode(d, a).rest == []
    decreases |a|
  {
    if a == [] {
      assert a + b == b;
    } else {
      assert (a + b)[1..] == a[1..] + b;
      DecodeSplit(Step(d, a[0]).dec, a[1..], b);
    }
  }

  /** Feed pieces one at a time while the decoder asks for more; leftovers after a verdict pile up. */
  function DecodePieces(d: Dec, pieces: seq<seq<byte>>): Result
    decreases |pieces|
  {
    if pieces == [] then Result(Incomplete, d, [], []) else
    var r := Decode(d, pieces[0]);
    if r.verdict == Incomplete then Prepend(r.out, DecodePieces(r.dec, pieces[1..]))
    else r.(rest := r.rest + Concat(pieces[1..]))
  }

  /** Any cutting of the input gives the same bytes, state, verdict and leftover as decoding it at once. */
  lemma {:induction false} PiecewiseIsWhole(d: Dec, pieces: seq<seq<byte>>)
    ensures DecodePieces(d, pieces) == Decode(d, Concat(pieces))
    decreases |pieces|
  {
    if pieces != [] {
      DecodeSplit(d, pieces[0], Concat(pieces[1..]));
      PiecewiseIsWhole(Decode(d, pieces[0]).dec, pieces[1..]);
    }
  }

  /** Input is never lost: what was emitted and what is left over fit into what came in. */
  lemma {:induction false} OutputFits(d: Dec, input: seq<byte>)
    ensures |Decode(d, input).out| + |Decode(d, input).rest| <= |input|
    ensures Decode(d, input).rest == input[|input| - |Decode(d, input).rest|..]
    decreases |input|
  {
    if input != [] && (Step(d, input[0]).Take? || Step(d, input[0]).Emit?) {
      OutputFits(Step(d, input[0]).dec, input[1..]);
    }
  }

  // ---------------------------------------------------------------- encoding and back

  /** The hexadecimal digits 0-9 a-f, and 0-9 A-F. */
  const LOWER: seq<byte> := [48, 49, 50, 51, 52, 53, 54, 55, 56, 57, 97, 98, 99, 100, 101, 102]
  const UPPER: seq<byte> := [48, 49, 50, 51, 52, 53, 54, 55, 56, 57, 65, 66, 67, 68, 69, 70]

  predicate IsDigit(c: byte) { c in LOWER || c in UPPER }

  /** A size as it is written: the values of its digits, and which of them are written in upper case. */
  datatype Size = Size(digits: seq<nat>, upper: seq<bool>)

  predicate SizeOk(z: Size) {
    0 < |z.digits| <= 16 && |z.upper| == |z.digits| && forall i :: 0 <= i < |z.digits| ==> z.digits[i] < 16
  }

  /** What a digit is worth by its position. */
  function ValueOf(digits: seq<nat>): nat {
    if digits == [] then 0 else digits[0] * Pow16(|digits| - 1) + ValueOf(digits[1..])
  }

  function Written(z: Size): seq<byte>
    requires SizeOk(z)
  {
    seq(|z.digits|, i requires 0 <= i < |z.digits| => if z.upper[i] then UPPER[z.digits[i]] else LOWER[z.digits[i]])
  }

  /**
   A chunk: its size, what follows up to the end of the line, the data, and how many CRs come before the
   LF behind it. Section 4.1 of RFC 7230 wants extensions and CR for `line`, and one CR behind the data.
   */
  datatype Chunk = Chunk(size: Size, line: seq<byte>, data: seq<byte>, crs: nat)

  predicate NoLf(s: seq<byte>) { forall i :: 0 <= i < |s| ==> s[i] != LF }

  predicate LineOk(line: seq<byte>) { NoLf(line) && (line == [] || !IsDigit(line[0])) }

  predicate ChunkOk(c: Chunk) {
    SizeOk(c.size) && ValueOf(c.size.digits) == |c.data| > 0 && LineOk(c.line)
  }

  /** A trailer line has something in it besides CRs. */
  predicate TrailerOk(line: seq<byte>) { NoLf(line) && exists i :: 0 <= i < |line| && line[i] != CR }

  function Crs(n: nat): seq<byte> { seq(n, _ => CR) }

  function Head(z: Size, line: seq<byte>): seq<byte>
    requires SizeOk(z)
  {
    Written(z) + line + [LF]
  }

  function EncodeChunk(c: Chunk): seq<byte>
    requires ChunkOk(c)
  {
    Head(c.size, c.line) + c.data + Crs(c.crs) + [LF]
  }

  predicate ChunksOk(cs: seq<Chunk>) { forall i :: 0 <= i < |cs| ==> ChunkOk(cs[i]) }

  function EncodeChunks(cs: seq<Chunk>): seq<byte>
    requires ChunksOk(cs)
  {
    if cs == [] then [] else EncodeChunk(cs[0]) + EncodeChunks(cs[1..])
  }

  function EncodeTrailers(lines: seq<seq<byte>>): seq<byte> {
    if lines == [] then [] else lines[0] + [LF] + EncodeTrailers(lines[1..])
  }

  /** A message: chunks, a last size of value 0, trailer lines, and an empty line. */
  datatype Message = Message(chunks: seq<Chunk>, last: Size, line: seq<byte>, trailers: seq<seq<byte>>, crs: nat)

  predicate MessageOk(m: Message) {
    && ChunksOk(m.chunks) && SizeOk(m.last) && ValueOf(m.last.digits) == 0 && LineOk(m.line)
    && forall i :: 0 <= i < |m.trailers| ==> TrailerOk(m.trailers[i])
  }

  function Trailers(m: Message): seq<byte> { EncodeTrailers(m.trailers) + Crs(m.crs) + [LF] }

  function Encode(m: Message): seq<byte>
    requires MessageOk(m)
  {
    EncodeChunks(m.chunks) + Head(m.last, m.line) + Trailers(m)
  }

  function Payload(cs: seq<Chunk>): seq<byte> {
    if cs == [] then [] else cs[0].data + Payload(cs[1..])
  }

  /** `decode_hex` on the digits of both tables, and on everything else. */
  lemma HexIsTable(c: byte, v: nat)
    ensures v < 16 ==> Hex(LOWER[v]) == Hex(UPPER[v]) == v
    ensures !IsDigit(c) <==> Hex(c) == -1
  {
    if Hex(c) != -1 {
      assert c == LOWER[Hex(c)] || c == UPPER[Hex(c)];
    }
  }

  lemma {:induction false} ValueLast(digits: seq<nat>)
    requires digits != []
    ensures ValueOf(digits) == 16 * ValueOf(digits[..|digits| - 1]) + digits[|digits| - 1]
  {
    var n := |digits| - 1;
    if n > 0 {
      ValueLast(digits[1..]);
      assert digits[1..][..n - 1] == digits[..n][1..];
      TimesSixteen(digits[0], Pow16(n - 1));
    } else {
      assert digits[..n] == [];
    }
  }

  lemma TimesSixteen(a: nat, p: nat)
    ensures a * (16 * p) == 16 * (a * p)
  {
  }

  lemma {:induction false} ValueFits(digits: seq<nat>)
    requires forall i :: 0 <= i < |digits| ==> digits[i] < 16
    ensures ValueOf(digits) < Pow16(|digits|)
  {
    if digits != [] {
      ValueFits(digits[1..]);
      TimesAtMost15(digits[0], Pow16(|digits| - 1));
    }
  }

  lemma TimesAtMost15(a: nat, p: nat)
    requires a < 16
    ensures a * p <= 15 * p
  {
  }

  /** Adding a digit to the accumulator is what its position says, and never wraps around. */
  lemma AddedDigit(digits: seq<nat>)
    requires 0 < |digits| <= 16 && forall i :: 0 <= i < |digits| ==> digits[i] < 16
    ensures var n := |digits| - 1; (ValueOf(digits[..n]) * 16 + digits[n]) % SIZE_LIMIT == ValueOf(digits)
  {
    var n := |digits| - 1;
    ValueFits(digits[..n]);
    DigitFits(ValueOf(digits[..n]), n, digits[n]);
    ValueLast(digits);
  }

  /** The state after the digits of a size: their value by position. */
  function AfterDigits(d: Dec, digits: seq<nat>): Dec { d.(left := ValueOf(digits), hex := |digits|) }

  lemma {:induction false} ReadDigits(d: Dec, z: Size)
    requires d.phase == ChunkSize && d.left == 0 && d.hex == 0 && SizeOk(z)
    ensures Decode(d, Written(z)) == Result(Incomplete, AfterDigits(d, z.digits), [], [])
    decreases |z.digits|, 1
  {
    var n := |z.digits| - 1;
    var w := Written(z);
    ReadFront(d, z);
    HexOfWritten(z, n);
    ReadDigit(AfterDigits(d, z.digits[..n]), w[n], z.digits[n]);
    AddedDigit(z.digits);
    DecodeSplit(d, w[..n], [w[n]]);
    assert w == w[..n] + [w[n]];
  }

  lemma {:induction false} ReadFront(d: Dec, z: Size)
    requires d.phase == ChunkSize && d.left == 0 && d.hex == 0 && SizeOk(z)
    ensures var n := |z.digits| - 1;
      Decode(d, Written(z)[..n]) == Result(Incomplete, AfterDigits(d, z.digits[..n]), [], [])
    decreases |z.digits|, 0
  {
    var n := |z.digits| - 1;
    if n > 0 {
      ReadDigits(d, Size(z.digits[..n], z.upper[..n]));
      assert Written(Size(z.digits[..n], z.upper[..n])) == Written(z)[..n];
    } else {
      assert Written(z)[..n] == [] && z.digits[..n] == [];
    }
  }

  lemma HexOfWritten(z: Size, i: nat)
    requires SizeOk(z) && i < |z.digits|
    ensures Hex(Written(z)[i]) == z.digits[i]
  {
    HexIsTable(0, z.digits[i]);
  }

  lemma ReadDigit(d: Dec, c: byte, v: nat)
    requires d.phase == ChunkSize && Hex(c) == v && d.hex < 16
    ensures Decode(d, [c]) == Result(Incomplete, d.(left := (d.left * 16 + v) % SIZE_LIMIT, hex := d.hex + 1), [], [])
  {
    assert [c][1..] == [];
    var d' := d.(left := (d.left * 16 + v) % SIZE_LIMIT, hex := d.hex + 1);
    assert Step(d, c) == Take(d');
    assert Decode(d, [c]) == Decode(d', []);
  }

  /** Bytes up to a line end are skipped by a phase that only waits for LF. */
  lemma {:induction false} SkipLine(d: Dec, s: seq<byte>)
    requires NoLf(s) && (d.phase == ChunkExt || d.phase == TrailerMiddle)
    ensures Decode(d, s) == Result(Incomplete, d, [], [])
  {
    if s != [] { SkipLine(d, s[1..]); }
  }

  lemma {:induction false} SkipCrs(d: Dec, n: nat)
    requires d.phase == ChunkCrlf || d.phase == TrailerHead
    ensures Decode(d, Crs(n)) == Result(Incomplete, d, [], [])
  {
    if n > 0 {
      SkipCrs(d, n - 1);
      assert Crs(n)[1..] == Crs(n - 1);
    }
  }

  lemma SkipCrsThen(d: Dec, n: nat, rest: seq<byte>)
    requires d.phase == ChunkCrlf || d.phase == TrailerHead
    ensures Decode(d, Crs(n) + rest) == Decode(d, rest)
  {
    SkipCrs(d, n);
    DecodeSplit(d, Crs(n), rest);
    assert Prepend([], Decode(d, rest)) == Decode(d, rest);
  }

  lemma {:induction false} ReadData(d: Dec, s: seq<byte>)
    requires d.phase == ChunkData && |s| <= d.left && d.left > 0
    ensures Decode(d, s) == Result(Incomplete,
      if |s| == d.left then d.(left := 0, phase := ChunkCrlf) else d.(left := d.left - |s|), s, [])
    decreases |s|
  {
    if s != [] {
      if |s| == 1 { assert s[1..] == []; } else { ReadData(d.(left := d.left - 1), s[1..]); }
      assert [s[0]] + s[1..] == s;
    }
  }

  lemma DecodeOne(d: Dec, c: byte, rest: seq<byte>)
    ensures var m := Step(d, c);
      Decode(d, [c] + rest) ==
        if m.Take? then Decode(m.dec, rest)
        else if m.Emit? then Prepend([c], Decode(m.dec, rest))
        else if m.Finish? then Result(Complete, m.dec, [], rest)
        else Result(Malformed, m.dec, [], [c] + rest)
  {
    assert ([c] + rest)[1..] == rest;
  }

  lemma Associates(a: seq<byte>, b: seq<byte>, c: seq<byte>)
    ensures a + b + c == a + (b + c)
  {
  }

  /** Behind the digits, everything up to the LF is skipped. */
  lemma ReadRestOfLine(d: Dec, line: seq<byte>, rest: seq<byte>)
    requires d.phase == ChunkSize && d.hex > 0 && LineOk(line)
    ensures Decode(d, line + ([LF] + rest)) == Decode(d.(hex := 0, phase := ChunkExt), [LF] + rest)
  {
    var e := d.(hex := 0, phase := ChunkExt);
    if line == [] {
      HexIsTable(LF, 0);
      assert line + ([LF] + rest) == [LF] + rest;
      DecodeOne(d, LF, rest);
      DecodeOne(e, LF, rest);
    } else {
      HexIsTable(line[0], 0);
      assert line + ([LF] + rest) == [line[0]] + (line[1..] + ([LF] + rest));
      DecodeOne(d, line[0], line[1..] + ([LF] + rest));
      SkipLine(e, line[1..]);
      DecodeSplit(e, line[1..], [LF] + rest);
    }
  }

  /** A whole size line: what the decoder goes on with. */
  lemma ReadHead(d: Dec, z: Size, line: seq<byte>, rest: seq<byte>)
    requires d.phase == ChunkSize && d.left == 0 && d.hex == 0 && SizeOk(z) && LineOk(line)
    ensures var e := d.(left := ValueOf(z.digits), phase := ChunkExt);
      Decode(d, Head(z, line) + rest) ==
        if e.left > 0 then Decode(e.(phase := ChunkData), rest)
        else if d.trailer then Decode(e.(phase := TrailerHead), rest)
        else Result(Complete, e, [], rest)
  {
    ReadDigits(d, z);
    DecodeSplit(d, Written(z), line + ([LF] + rest));
    Associates(Written(z) + line, [LF], rest);
    Associates(Written(z), line, [LF] + rest);
    ReadRestOfLine(AfterDigits(d, z.digits), line, rest);
    DecodeOne(d.(left := ValueOf(z.digits), phase := ChunkExt), LF, rest);
  }

  lemma PrependTwice(a: seq<byte>, b: seq<byte>, r: Result)
    ensures Prepend(a, Prepend(b, r)) == Prepend(a + b, r)
  {
  }

  /** The data of a chunk and the CRs behind it. */
  lemma ReadDataLine(d: Dec, data: seq<byte>, crs: nat, rest: seq<byte>)
    requires d.phase == ChunkData && d.left == |data| > 0
    ensures Decode(d, data + (Crs(crs) + rest)) == Prepend(data, Decode(d.(left := 0, phase := ChunkCrlf), rest))
  {
    ReadData(d, data);
    DecodeSplit(d, data, Crs(crs) + rest);
    SkipCrsThen(d.(left := 0, phase := ChunkCrlf), crs, rest);
  }

  /** A chunk without the LF that ends it. */
  lemma ReadBody(trailer: bool, c: Chunk, rest: seq<byte>)
    requires ChunkOk(c)
    ensures var d := Fresh(trailer);
      Decode(d, Head(c.size, c.line) + c.data + Crs(c.crs) + rest)
      == Prepend(c.data, Decode(d.(phase := ChunkCrlf), rest))
  {
    var d, head := Fresh(trailer), Head(c.size, c.line);
    Associates(head, c.data, Crs(c.crs));
    Associates(head, c.data + Crs(c.crs), rest);
    Associates(c.data, Crs(c.crs), rest);
    ReadHead(d, c.size, c.line, c.data + (Crs(c.crs) + rest));
    ReadDataLine(d.(left := |c.data|, phase := ChunkData), c.data, c.crs, rest);
  }

  lemma ReadChunk(trailer: bool, c: Chunk, rest: seq<byte>)
    requires ChunkOk(c)
    ensures Decode(Fresh(trailer), EncodeChunk(c) + rest) == Prepend(c.data, Decode(Fresh(trailer), rest))
  {
    ReadBody(trailer, c, [LF] + rest);
    DecodeOne(Fresh(trailer).(phase := ChunkCrlf), LF, rest);
    Associates(Head(c.size, c.line) + c.data + Crs(c.crs), [LF], rest);
  }

  lemma {:induction false} ReadChunks(trailer: bool, cs: seq<Chunk>, rest: seq<byte>)
    requires ChunksOk(cs)
    ensures Decode(Fresh(trailer), EncodeChunks(cs) + rest) == Prepend(Payload(cs), Decode(Fresh(trailer), rest))
  {
    var d := Fresh(trailer);
    if cs == [] {
      assert EncodeChunks(cs) + rest == rest;
      assert Prepend([], Decode(d, rest)) == Decode(d, rest);
    } else {
      var more := EncodeChunks(cs[1..]) + rest;
      ReadChunk(trailer, cs[0], more);
      ReadChunks(trailer, cs[1..], rest);
      Associates(EncodeChunk(cs[0]), EncodeChunks(cs[1..]), rest);
      PrependTwice(cs[0].data, Payload(cs[1..]), Decode(d, rest));
    }
  }

  lemma {:induction false} ReadTrailerLine(d: Dec, line: seq<byte>, rest: seq<byte>)
    requires d.phase == TrailerHead && TrailerOk(line)
    ensures Decode(d, line + [LF] + rest) == Decode(d, rest)
    decreases |line|
  {
    var m, more := d.(phase := TrailerMiddle), line[1..] + [LF] + rest;
    assert line + [LF] + rest == [line[0]] + more;
    DecodeOne(d, line[0], more);
    if line[0] == CR {
      ReadTrailerLine(d, line[1..], rest);
    } else {
      SkipLine(m, line[1..]);
      DecodeSplit(m, line[1..], [LF] + rest);
      assert more == line[1..] + ([LF] + rest);
      DecodeOne(m, LF, rest);
    }
  }

  lemma {:induction false} ReadTrailers(d: Dec, lines: seq<seq<byte>>, rest: seq<byte>)
    requires d.phase == TrailerHead
    requires forall i :: 0 <= i < |lines| ==> TrailerOk(lines[i])
    ensures Decode(d, EncodeTrailers(lines) + rest) == Decode(d, rest)
  {
    if lines == [] {
      assert EncodeTrailers(lines) + rest == rest;
    } else {
      ReadTrailerLine(d, lines[0], EncodeTrailers(lines[1..]) + rest);
      ReadTrailers(d, lines[1..], rest);
      assert EncodeTrailers(lines) + rest == lines[0] + [LF] + (EncodeTrailers(lines[1..]) + rest);
    }
  }

  lemma ReadEnd(d: Dec, m: Message, tail: seq<byte>)
    requires d.phase == TrailerHead && MessageOk(m)
    ensures Decode(d, Trailers(m) + tail) == Result(Complete, d, [], tail)
  {
    var lines, crs := EncodeTrailers(m.trailers), Crs(m.crs);
    Associates(lines + crs, [LF], tail);
    Associates(lines, crs, [LF] + tail);
    ReadTrailers(d, m.trailers, crs + ([LF] + tail));
    SkipCrsThen(d, m.crs, [LF] + tail);
    DecodeOne(d, LF, tail);
  }

  /**
   Encoding any list of non-empty chunks, with their sizes written in any way, with extensions and trailer
   lines, and decoding it in any pieces returns the concatenated data; everything after the message is
   left over. A decoder that does not consume trailers stops right after the last chunk's size line.
   */
  lemma RoundTrip(trailer: bool, m: Message, tail: seq<byte>, pieces: seq<seq<byte>>)
    requires MessageOk(m) && Concat(pieces) == Encode(m) + tail
    ensures var r := DecodePieces(Fresh(trailer), pieces);
      && r.verdict == Complete && r.out == Payload(m.chunks)
      && r.rest == if trailer then tail else Trailers(m) + tail
  {
    var d, rest := Fresh(trailer), Trailers(m) + tail;
    PiecewiseIsWhole(d, pieces);
    assert Encode(m) + tail == EncodeChunks(m.chunks) + (Head(m.last, m.line) + rest);
    ReadChunks(trailer, m.chunks, Head(m.last, m.line) + rest);
    ReadHead(d, m.last, m.line, rest);
    if trailer { ReadEnd(d.(phase := TrailerHead), m, tail); }
  }

  /** Before the message is all there, the decoder wants more: it never stops early. */
  lemma PrefixIsIncomplete(m: Message, pieces: seq<seq<byte>>, missing: seq<byte>)
    requires MessageOk(m) && Concat(pieces) + missing == Encode(m) && missing != []
    ensures DecodePieces(Fresh(true), pieces).verdict == Incomplete
  {
    PiecewiseIsWhole(Fresh(true), pieces);
    var d, a := Fresh(true), Concat(pieces);
    RoundTrip(true, m, [], [Encode(m)]);
    PiecewiseIsWhole(d, [Encode(m)]);
    assert Concat([Encode(m)]) == Encode(m) by { assert [Encode(m)][1..] == []; }
    DecodeSplit(d, a, missing);
    assert Decode(d, a).verdict == Incomplete || Decode(d, a + missing).rest == Decode(d, a).rest + missing;
  }

  /**
   Where the message goes wrong: no digit for a size, a 17th digit, or something else than a line end
   behind the data.
   */
  datatype Mistake = NoSize | LongSize(size: Size) | NoLineEnd(chunk: Chunk)

  predicate MistakeOk(e: Mistake, c: byte) {
    match e
    case NoSize => !IsDigit(c)
    case LongSize(z) => SizeOk(z) && |z.digits| == 16 && IsDigit(c)
    case NoLineEnd(chunk) => ChunkOk(chunk) && c != CR && c != LF
  }

  /** What stands between the last good chunk and the offending byte. */
  function Before(e: Mistake, c: byte): seq<byte>
    requires MistakeOk(e, c)
  {
    match e
    case NoSize => []
    case LongSize(z) => Written(z)
    case NoLineEnd(chunk) => Head(chunk.size, chunk.line) + chunk.data + Crs(chunk.crs)
  }

  /** Malformed input is refused at the first offending byte, which is not consumed; all data before it is there. */
  lemma RefusesMalformed(trailer: bool, cs: seq<Chunk>, e: Mistake, c: byte, tail: seq<byte>, pieces: seq<seq<byte>>)
    requires ChunksOk(cs) && MistakeOk(e, c) && Concat(pieces) == EncodeChunks(cs) + (Before(e, c) + ([c] + tail))
    ensures var r := DecodePieces(Fresh(trailer), pieces);
      && r.verdict == Malformed && r.rest == [c] + tail
      && r.out == Payload(cs) + if e.NoLineEnd? then e.chunk.data else []
  {
    var d, bad := Fresh(trailer), [c] + tail;
    PiecewiseIsWhole(d, pieces);
    ReadChunks(trailer, cs, Before(e, c) + bad);
    HexIsTable(c, 0);
    match e {
      case NoSize =>
        assert Before(e, c) + bad == bad;
        DecodeOne(d, c, tail);
      case LongSize(z) =>
        ReadDigits(d, z);
        DecodeSplit(d, Written(z), bad);
        DecodeOne(AfterDigits(d, z.digits), c, tail);
      case NoLineEnd(chunk) =>
        ReadBody(trailer, chunk, bad);
        DecodeOne(d.(phase := ChunkCrlf), c, tail);
    }
  }
}
