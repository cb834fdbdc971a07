/**
 CRC-32 (section 8 of RFC 1952): the bit-at-a-time definition and why the four-bytes-at-a-time table
 form of `crc32.c` computes the same. Machine words are sequences of bits, least significant first.
 */
module Crc {
  import opened Units

  function Zeros(n: nat): (s: seq<bool>)
    ensures |s| == n
  {
    seq(n, i => false)
  }

  type Word = s: seq<bool> | |s| == 32 witness Zeros(32)

  /** The word with exactly these bits set. */
  function OfBits(bits: set<nat>): Word { seq(32, i requires 0 <= i < 32 => i in bits) }

  /** The generator of CRC-32, 0xedb88320. Everything in this module holds for any generator p. */
  const POLY: Word := OfBits({5, 8, 9, 15, 19, 20, 21, 23, 24, 26, 27, 29, 30, 31})

  function Xor(a: Word, b: Word): Word { seq(32, i requires 0 <= i < 32 => a[i] != b[i]) }

  function Not(a: Word): Word { seq(32, i requires 0 <= i < 32 => !a[i]) }

  function Shr(a: Word, n: nat): Word
    requires n <= 32
  {
    a[n..] + Zeros(n)
  }

  /** Byte b shifted left by k bytes. */
  function At(b: Byte, k: nat): Word
    requires k < 4
  {
    Zeros(8 * k) + b + Zeros(24 - 8 * k)
  }

  function ByteAt(c: Word, k: nat): Byte
    requires k < 4
  {
    c[8 * k..8 * k + 8]
  }

  /** One step of the shift register. */
  function Bit(p: Word, c: Word): Word { if c[0] then Xor(Shr(c, 1), p) else Shr(c, 1) }

  function Steps(p: Word, c: Word, n: nat): Word
    decreases n
  {
    if n == 0 then c else Steps(p, Bit(p, c), n - 1)
  }

  /** The register after the bytes of s: each byte is added at the low end, then one step per bit of it. */
  function Register(p: Word, c: Word, s: seq<Byte>): Word
    decreases |s|
  {
    if s == [] then c else Register(p, Steps(p, Xor(c, At(s[0], 0)), |s[0]|), s[1..])
  }

  /** The checksum of s continued from the checksum crc of what came before. */
  function Crc32(p: Word, crc: Word, s: seq<Byte>): Word { Not(Register(p, Not(crc), s)) }

  // ---------------------------------------------------------------- cutting the data

  lemma {:induction false} RegisterAppend(p: Word, c: Word, a: seq<Byte>, b: seq<Byte>)
    ensures Register(p, c, a + b) == Register(p, Register(p, c, a), b)
    decreases |a|
  {
    if a == [] {
      assert a + b == b;
    } else {
      assert (a + b)[1..] == a[1..] + b;
      RegisterAppend(p, Steps(p, Xor(c, At(a[0], 0)), |a[0]|), a[1..], b);
    }
  }

  lemma NotNot(c: Word)
    ensures Not(Not(c)) == c
  {
  }

  lemma CrcAppend(p: Word, crc: Word, a: seq<Byte>, b: seq<Byte>)
    ensures Crc32(p, crc, a + b) == Crc32(p, Crc32(p, crc, a), b)
  {
    RegisterAppend(p, Not(crc), a, b);
    NotNot(Register(p, Not(crc), a));
  }

  function CrcPieces(p: Word, crc: Word, pieces: seq<seq<Byte>>): Word
    decreases |pieces|
  {
    if pieces == [] then crc else CrcPieces(p, Crc32(p, crc, pieces[0]), pieces[1..])
  }

  /** Checksumming any cutting of the data piece by piece gives the checksum of the whole. */
  lemma {:induction false} PiecesAreWhole(p: Word, crc: Word, pieces: seq<seq<Byte>>)
    ensures CrcPieces(p, crc, pieces) == Crc32(p, crc, Concat(pieces))
    decreases |pieces|
  {
    if pieces == [] {
      NotNot(crc);
    } else {
      PiecesAreWhole(p, Crc32(p, crc, pieces[0]), pieces[1..]);
      CrcAppend(p, crc, pieces[0], Concat(pieces[1..]));
    }
  }

  // ---------------------------------------------------------------- the register is linear

  lemma XorAssociative(a: Word, b: Word, c: Word)
    ensures Xor(Xor(a, b), c) == Xor(a, Xor(b, c))
  {
  }

  lemma BitLinear(p: Word, a: Word, b: Word)
    ensures Bit(p, Xor(a, b)) == Xor(Bit(p, a), Bit(p, b))
  {
  }

  lemma {:induction false} StepsLinear(p: Word, a: Word, b: Word, n: nat)
    ensures Steps(p, Xor(a, b), n) == Xor(Steps(p, a, n), Steps(p, b, n))
    decreases n
  {
    if n > 0 {
      BitLinear(p, a, b);
      StepsLinear(p, Bit(p, a), Bit(p, b), n - 1);
    }
  }

  lemma {:induction false} StepsSum(p: Word, c: Word, m: nat, n: nat)
    ensures Steps(p, c, m + n) == Steps(p, Steps(p, c, m), n)
    decreases m
  {
    if m > 0 { StepsSum(p, Bit(p, c), m - 1, n); }
  }

  /** Steps over low bits that are all zero only shift. */
  lemma {:induction false} StepsShift(p: Word, c: Word, n: nat)
    requires n <= 32 && forall i :: 0 <= i < n ==> !c[i]
    ensures Steps(p, c, n) == Shr(c, n)
    decreases n
  {
    if n == 0 {
      assert Shr(c, 0) == c;
    } else {
      assert Bit(p, c) == Shr(c, 1);
      StepsShift(p, Shr(c, 1), n - 1);
      assert Shr(Shr(c, 1), n - 1) == Shr(c, n);
    }
  }

  lemma ByteComesDown(p: Word, b: Byte, k: nat)
    requires k < 4
    ensures Steps(p, At(b, k), 8 * k) == At(b, 0)
  {
    StepsShift(p, At(b, k), 8 * k);
    assert Shr(At(b, k), 8 * k) == At(b, 0);
  }

  // ---------------------------------------------------------------- tables

  /** 256 words, one per byte value. */
  type Table = Byte -> Word

  datatype Tables = Tables(poly: Word, t0: Table, t1: Table, t2: Table, t3: Table)

  /** The register moved on by one byte of zeros, with one table lookup. */
  function Lookup(t0: Table, c: Word): Word { Xor(t0(ByteAt(c, 0)), Shr(c, 8)) }

  /** The slicing recurrence that defines `crc_table[0]` to `crc_table[3]`. */
  ghost predicate Slicing(t: Tables) { forall b: Byte :: Entry(t, b) }

  ghost predicate Entry(t: Tables, b: Byte) {
    && t.t0(b) == Steps(t.poly, At(b, 0), 8)
    && t.t1(b) == Lookup(t.t0, t.t0(b))
    && t.t2(b) == Lookup(t.t0, t.t1(b))
    && t.t3(b) == Lookup(t.t0, t.t2(b))
  }

  lemma LookupIsEightSteps(t: Tables, c: Word)
    requires Slicing(t)
    ensures Lookup(t.t0, c) == Steps(t.poly, c, 8)
  {
    var lo, hi: Word := At(ByteAt(c, 0), 0), Zeros(8) + c[8..];
    assert Xor(lo, hi) == c;
    assert Entry(t, ByteAt(c, 0));
    StepsLinear(t.poly, lo, hi, 8);
    StepsShift(t.poly, hi, 8);
    assert Shr(hi, 8) == Shr(c, 8);
  }

  /** Table k holds the effect of 8(k + 1) steps on a single byte. */
  lemma TableEntries(t: Tables, b: Byte)
    requires Slicing(t)
    ensures t.t1(b) == Steps(t.poly, At(b, 0), 16) && t.t2(b) == Steps(t.poly, At(b, 0), 24)
    ensures t.t3(b) == Steps(t.poly, At(b, 0), 32)
  {
    assert Entry(t, b);
    LookupIsEightSteps(t, t.t0(b));
    LookupIsEightSteps(t, t.t1(b));
    LookupIsEightSteps(t, t.t2(b));
    StepsSum(t.poly, At(b, 0), 8, 8);
    StepsSum(t.poly, At(b, 0), 16, 8);
    StepsSum(t.poly, At(b, 0), 24, 8);
  }

  /** The four lookups of DOLIT4, after the data was added to the register. */
  function FourLookups(t: Tables, c: Word): Word {
    Xor(t.t3(ByteAt(c, 0)), Xor(t.t2(ByteAt(c, 1)), Xor(t.t1(ByteAt(c, 2)), t.t0(ByteAt(c, 3)))))
  }

  lemma ByteSplit(c: Word)
    ensures c == Xor(At(ByteAt(c, 0), 0), Xor(At(ByteAt(c, 1), 1), Xor(At(ByteAt(c, 2), 2), At(ByteAt(c, 3), 3))))
  {
  }

  /** 32 steps over a byte k places up are 32 - 8k steps over the byte. */
  lemma HighByte(p: Word, b: Byte, k: nat)
    requires k < 4
    ensures Steps(p, At(b, k), 32) == Steps(p, At(b, 0), 32 - 8 * k)
  {
    ByteComesDown(p, b, k);
    StepsSum(p, At(b, k), 8 * k, 32 - 8 * k);
  }

  lemma FourLookupsAre32Steps(t: Tables, c: Word)
    requires Slicing(t)
    ensures FourLookups(t, c) == Steps(t.poly, c, 32)
  {
    var b0, b1, b2, b3 := ByteAt(c, 0), ByteAt(c, 1), ByteAt(c, 2), ByteAt(c, 3);
    ByteSplit(c);
    StepsLinear(t.poly, At(b0, 0), Xor(At(b1, 1), Xor(At(b2, 2), At(b3, 3))), 32);
    StepsLinear(t.poly, At(b1, 1), Xor(At(b2, 2), At(b3, 3)), 32);
    StepsLinear(t.poly, At(b2, 2), At(b3, 3), 32);
    HighByte(t.poly, b1, 1);
    HighByte(t.poly, b2, 2);
    HighByte(t.poly, b3, 3);
    TableEntries(t, b0);
    TableEntries(t, b1);
    TableEntries(t, b2);
    assert Entry(t, b3);
  }

  /** The little-endian word at the front of s. */
  function LeWord(s: seq<Byte>): Word
    requires |s| >= 4
  {
    var (b0: seq<bool>, b1: seq<bool>, b2: seq<bool>, b3: seq<bool>) := (s[0], s[1], s[2], s[3]);
    b0 + b1 + b2 + b3
  }

  lemma LeWordSplit(s: seq<Byte>)
    requires |s| >= 4
    ensures LeWord(s) == Xor(At(s[0], 0), Xor(At(s[1], 1), Xor(At(s[2], 2), At(s[3], 3))))
  {
  }

  /** Adding a byte after k bytes of steps is adding it k places up before them. */
  lemma AddLate(p: Word, c: Word, b: Byte, k: nat)
    requires k < 4
    ensures Xor(Steps(p, c, 8 * k), At(b, 0)) == Steps(p, Xor(c, At(b, k)), 8 * k)
  {
    StepsLinear(p, c, At(b, k), 8 * k);
    ByteComesDown(p, b, k);
  }

  /** Four bytes at once are the four bytes one after the other. */
  lemma WordIsFourBytes(p: Word, c: Word, s: seq<Byte>)
    requires |s| >= 4
    ensures Register(p, c, s) == Register(p, Steps(p, Xor(c, LeWord(s)), 32), s[4..])
  {
    var c1 := Xor(c, At(s[0], 0));
    var c2 := Xor(c1, At(s[1], 1));
    var c3 := Xor(c2, At(s[2], 2));
    var c4 := Xor(c3, At(s[3], 3));
    RegisterByte(p, c, s, c1, 0);
    RegisterByte(p, c1, s, c2, 1);
    RegisterByte(p, c2, s, c3, 2);
    RegisterByte(p, c3, s, c4, 3);
    LeWordSplit(s);
    XorAssociative(c, At(s[0], 0), Xor(At(s[1], 1), Xor(At(s[2], 2), At(s[3], 3))));
    XorAssociative(c1, At(s[1], 1), Xor(At(s[2], 2), At(s[3], 3)));
    XorAssociative(c2, At(s[2], 2), At(s[3], 3));
    assert s[0..] == s;
  }

  lemma RegisterByte(p: Word, c: Word, s: seq<Byte>, c': Word, k: nat)
    requires k < 4 <= |s| && c' == Xor(c, At(s[k], k))
    ensures Register(p, Steps(p, c, 8 * k), s[k..]) == Register(p, Steps(p, c', 8 * k + 8), s[k + 1..])
  {
    AddLate(p, c, s[k], k);
    StepsSum(p, c', 8 * k, 8);
    assert s[k..][1..] == s[k + 1..];
  }
}
