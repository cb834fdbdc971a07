/** The table of `crc32.c` at the CRC-32 generator: its single-bit entries, which determine all others. */
module CrcTable {
  import opened Units
  import opened Crc
  import CrcCode

  /** Bit i of entries 128, 64, ..., 2 and 1 of `crc_table[0]`, in this order, as in the file; first a lone bit 0. */
  predicate BitOf(k: nat, i: nat)
    requires k <= 8
  {
    match k
    case 0 => i == 0
    case 1 => i in {5, 8, 9, 15, 19, 20, 21, 23, 24, 26, 27, 29, 30, 31} // 0xedb88320
    case 2 => i in {4, 7, 8, 14, 18, 19, 20, 22, 23, 25, 26, 28, 29, 30} // 0x76dc4190
    case 3 => i in {3, 6, 7, 13, 17, 18, 19, 21, 22, 24, 25, 27, 28, 29} // 0x3b6e20c8
    case 4 => i in {2, 5, 6, 12, 16, 17, 18, 20, 21, 23, 24, 26, 27, 28} // 0x1db71064
    case 5 => i in {1, 4, 5, 11, 15, 16, 17, 19, 20, 22, 23, 25, 26, 27} // 0x0edb8832
    case 6 => i in {0, 3, 4, 10, 14, 15, 16, 18, 19, 21, 22, 24, 25, 26} // 0x076dc419
    case 7 => i in {2, 3, 5, 8, 13, 14, 17, 18, 19, 25, 26, 27, 29, 30, 31} // 0xee0e612c
    case 8 => i in {1, 2, 4, 7, 12, 13, 16, 17, 18, 24, 25, 26, 28, 29, 30} // 0x77073096
  }

  function Listed(k: nat): Word
    requires k <= 8
  {
    seq(32, i requires 0 <= i < 32 => BitOf(k, i))
  }

  lemma BitStep(k: nat, i: nat)
    requires k < 8 && i < 32
    ensures BitOf(k + 1, i) <==> (i < 31 && BitOf(k, i + 1)) != (BitOf(k, 0) && BitOf(1, i))
  {
  }

  /** Each listed entry is the one before it moved on by one step. */
  lemma ListedStep(k: nat)
    requires k < 8
    ensures Bit(POLY, Listed(k)) == Listed(k + 1)
  {
    forall i | 0 <= i < 32 ensures Bit(POLY, Listed(k))[i] == Listed(k + 1)[i] {
      BitStep(k, i);
    }
  }

  lemma {:induction false} StepsAlong(p: Word, ws: seq<Word>)
    requires |ws| > 0 && forall j :: 0 <= j < |ws| - 1 ==> Bit(p, ws[j]) == ws[j + 1]
    ensures Steps(p, ws[0], |ws| - 1) == ws[|ws| - 1]
  {
    if |ws| > 1 {
      StepsAlong(p, ws[1..]);
    }
  }

  lemma ListedSteps(n: nat)
    requires n <= 8
    ensures Steps(POLY, Listed(0), n) == Listed(n)
  {
    var ws := seq(n + 1, k requires 0 <= k <= n => Listed(k));
    forall k | 0 <= k < n ensures Bit(POLY, ws[k]) == ws[k + 1] { ListedStep(k); }
    StepsAlong(POLY, ws);
  }

  /** The byte with only bit j set. */
  function OneBit(j: nat): Byte
    requires j < 8
  {
    seq(8, i requires 0 <= i < 8 => i == j)
  }

  lemma ShiftedDown(j: nat)
    requires j < 8
    ensures Shr(At(OneBit(j), 0), j) == Listed(0) && forall i :: 0 <= i < j ==> !At(OneBit(j), 0)[i]
  {
  }

  lemma ShiftFirst(p: Word, c: Word, c0: Word, j: nat, n: nat)
    requires j <= 32 && (forall i :: 0 <= i < j ==> !c[i]) && Shr(c, j) == c0
    ensures Steps(p, c, j + n) == Steps(p, c0, n)
  {
    StepsSum(p, c, j, n);
    StepsShift(p, c, j);
  }

  lemma EntryIs(t: Tables, j: nat, n: nat)
    requires Slicing(t) && j < 8 && j + n == 8
    ensures t.t0(OneBit(j)) == Steps(t.poly, Listed(0), n)
  {
    assert Entry(t, OneBit(j));
    ShiftedDown(j);
    ShiftFirst(t.poly, At(OneBit(j), 0), Listed(0), j, n);
  }

  /** Tables meeting the recurrence for the CRC-32 generator have exactly the listed single-bit entries. */
  lemma SingleBitEntries(t: Tables, j: nat)
    requires Slicing(t) && t.poly == POLY && j < 8
    ensures t.t0(OneBit(j)) == Listed(8 - j)
  {
    EntryIs(t, j, 8 - j);
    ListedSteps(8 - j);
  }

  function XorByte(a: Byte, b: Byte): Byte { seq(8, i requires 0 <= i < 8 => a[i] != b[i]) }

  /** Every other entry is the exclusive or of such entries. */
  lemma EntriesCombine(t: Tables, a: Byte, b: Byte)
    requires Slicing(t)
    ensures t.t0(XorByte(a, b)) == Xor(t.t0(a), t.t0(b))
  {
    assert Entry(t, a) && Entry(t, b) && Entry(t, XorByte(a, b));
    assert At(XorByte(a, b), 0) == Xor(At(a, 0), At(b, 0));
    StepsLinear(t.poly, At(a, 0), At(b, 0), 8);
  }

  /** There are such tables for the CRC-32 generator, so what the loops compute with them is CRC-32. */
  lemma StandardTables()
    ensures Slicing(CrcCode.BuiltTables(POLY)) && CrcCode.BuiltTables(POLY).poly == POLY
  {
    CrcCode.TablesExist(POLY);
  }

  // ----- a known message -----

  /** The register while it takes in the letter a, bit i of it after k steps. */
  predicate LetterBit(k: nat, i: nat)
    requires k <= 8
  {
    match k
    case 0 => i !in {0, 5, 6} // 0xffffff9e
    case 1 => i !in {4, 5, 31} // 0x7fffffcf
    case 2 => i !in {3, 4, 5, 8, 9, 15, 19, 20, 21, 23, 24, 26, 27, 29} // 0xd2477cc7
    case 3 => i in {0, 1, 6, 8, 10, 11, 12, 13, 16, 17, 19, 20, 23, 26, 31} // 0x849b3d43
    case 4 => i !in {1, 2, 3, 4, 5, 6, 9, 13, 14, 15, 17, 19, 28, 30} // 0xaff51d81
    case 5 => i in {5, 6, 7, 8, 10, 11, 17, 22, 25, 27, 28, 29, 31} // 0xba420de0
    case 6 => i in {4, 5, 6, 7, 9, 10, 16, 21, 24, 26, 27, 28, 30} // 0x5d2106f0
    case 7 => i in {3, 4, 5, 6, 8, 9, 15, 20, 23, 25, 26, 27, 29} // 0x2e908378
    case 8 => i in {2, 3, 4, 5, 7, 8, 14, 19, 22, 24, 25, 26, 28} // 0x174841bc
  }

  function Letter(k: nat): Word
    requires k <= 8
  {
    seq(32, i requires 0 <= i < 32 => LetterBit(k, i))
  }

  lemma LetterBitStep(k: nat, i: nat)
    requires k < 8 && i < 32
    ensures LetterBit(k + 1, i) <==> (i < 31 && LetterBit(k, i + 1)) != (LetterBit(k, 0) && BitOf(1, i))
  {
  }

  lemma LetterStep(k: nat)
    requires k < 8
    ensures Bit(POLY, Letter(k)) == Letter(k + 1)
  {
    forall i | 0 <= i < 32 ensures Bit(POLY, Letter(k))[i] == Letter(k + 1)[i] {
      LetterBitStep(k, i);
    }
  }

  lemma LetterSteps()
    ensures Steps(POLY, Letter(0), 8) == Letter(8)
  {
    var ws := seq(9, k requires 0 <= k <= 8 => Letter(k));
    forall k | 0 <= k < 8 ensures Bit(POLY, ws[k]) == ws[k + 1] { LetterStep(k); }
    StepsAlong(POLY, ws);
  }

  /** 0x61 */
  const LETTER_A: Byte := [true, false, false, false, false, true, true, false]

  /** The CRC-32 of nothing is 0, and that of the letter a is 0xe8b7be43. */
  lemma KnownChecksums()
    ensures Crc32(POLY, Zeros(32), []) == Zeros(32)
    ensures Crc32(POLY, Zeros(32), [LETTER_A])
      == OfBits({0, 1, 6, 9, 10, 11, 12, 13, 15, 16, 17, 18, 20, 21, 23, 27, 29, 30, 31})
  {
    NotNot(Zeros(32));
    LetterEnters();
    LetterSteps();
    LetterLeaves();
    assert [LETTER_A][1..] == [];
    assert Register(POLY, Not(Zeros(32)), [LETTER_A]) == Register(POLY, Letter(8), []);
  }

  lemma LetterEnters()
    ensures Xor(Not(Zeros(32)), At(LETTER_A, 0)) == Letter(0)
  {
    var w := Xor(Not(Zeros(32)), At(LETTER_A, 0));
    forall i | 0 <= i < 32 ensures w[i] == LetterBit(0, i) {
      assert i >= 8 ==> !At(LETTER_A, 0)[i];
      assert i < 8 ==> At(LETTER_A, 0)[i] == LETTER_A[i];
    }
  }

  lemma LetterLeaves()
    ensures Not(Letter(8)) == OfBits({0, 1, 6, 9, 10, 11, 12, 13, 15, 16, 17, 18, 20, 21, 23, 27, 29, 30, 31})
  {
    forall i | 0 <= i < 32
      ensures Not(Letter(8))[i] == (i in {0, 1, 6, 9, 10, 11, 12, 13, 15, 16, 17, 18, 20, 21, 23, 27, 29, 30, 31}) {
    }
  }
}
