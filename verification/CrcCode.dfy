/**
 The loops of `crc32.c` and the checksum of a hash block in `image.c`, proved against the bit-at-a-
 time definition.
 */
module CrcCode {
  import opened Crc
  import opened Units

  /** Tables built by the recurrence. */
  ghost function BuiltTables(p: Word): Tables {
    var t0 := (b: Byte) => Steps(p, At(b, 0), 8);
    var t1 := (b: Byte) => Lookup(t0, t0(b));
    var t2 := (b: Byte) => Lookup(t0, t1(b));
    Tables(p, t0, t1, t2, (b: Byte) => Lookup(t0, t2(b)))
  }

  lemma TablesExist(p: Word)
    ensures Slicing(BuiltTables(p)) && BuiltTables(p).poly == p
  {
  }

  /** One table lookup for one byte, as in the loops for single bytes. */
  function OneLookup(t: Tables, c: Word, b: Byte): Word {
    Xor(t.t0(ByteAt(Xor(c, At(b, 0)), 0)), Shr(c, 8))
  }

  /** DOLIT4: four lookups for the next four bytes. */
  function DoLit4(t: Tables, c: Word, s: seq<Byte>): Word
    requires |s| >= 4
  {
    FourLookups(t, Xor(c, LeWord(s)))
  }

  /** What the loops need to know of the register after some data. */
  type Meaning = (Word, seq<Byte>) -> Word

  ghost predicate Law(t: Tables, m: Meaning, c: Word, s: seq<Byte>) {
    && (s == [] ==> m(c, s) == c)
    && (|s| >= 1 ==> m(c, s) == m(OneLookup(t, c, s[0]), s[1..]))
    && (|s| >= 4 ==> m(c, s) == m(DoLit4(t, c, s), s[4..]))
  }

  ghost predicate Laws(t: Tables, m: Meaning) { forall c, s :: Law(t, m, c, s) }

  ghost function RegisterOf(p: Word): Meaning { (c: Word, s: seq<Byte>) => Register(p, c, s) }

  /** The lookups do what the bit-at-a-time register does. */
  lemma LookupsMeanRegister(t: Tables)
    requires Slicing(t)
    ensures Laws(t, RegisterOf(t.poly))
  {
    forall c, s ensures Law(t, RegisterOf(t.poly), c, s) {
      if |s| >= 1 { OneLookupIsByte(t, c, s); }
      if |s| >= 4 {
        FourLookupsAre32Steps(t, Xor(c, LeWord(s)));
        WordIsFourBytes(t.poly, c, s);
      }
    }
  }

  lemma OneLookupIsByte(t: Tables, c: Word, s: seq<Byte>)
    requires Slicing(t) && |s| >= 1
    ensures Register(t.poly, c, s) == Register(t.poly, OneLookup(t, c, s[0]), s[1..])
  {
    var x := Xor(c, At(s[0], 0));
    LookupIsEightSteps(t, x);
    assert Shr(x, 8) == Shr(c, 8);
  }

  /** Single bytes, up to a 16-byte boundary of the address if aligning, else up to the end. */
  method Singles(t: Tables, c: Word, s: seq<Byte>, pos: nat, address: nat, aligning: bool, ghost m: Meaning)
    returns (c': Word, pos': nat)
    requires Laws(t, m) && pos <= |s|
    ensures pos' <= |s| && m(c, s[pos..]) == m(c', s[pos'..])
    ensures pos' == |s| || (aligning && (address + pos') % 16 == 0)
  {
    c', pos' := c, pos;
    while pos' < |s| && (!aligning || (address + pos') % 16 != 0)
      invariant pos' <= |s| && m(c, s[pos..]) == m(c', s[pos'..])
      decreases |s| - pos'
    {
      assert Law(t, m, c', s[pos'..]) && s[pos'..][1..] == s[pos' + 1..];
      c', pos' := OneLookup(t, c', s[pos']), pos' + 1;
    }
  }

  /** DOLIT4 for as many words as there are in n bytes; DOLIT32 is n == 32. */
  method Words(t: Tables, c: Word, s: seq<Byte>, pos: nat, n: nat, ghost m: Meaning) returns (c': Word)
    requires Laws(t, m) && pos + n <= |s| && n % 4 == 0
    ensures m(c, s[pos..]) == m(c', s[pos + n..])
  {
    c' := c;
    var done := 0;
    while done < n
      invariant done <= n && done % 4 == 0
      invariant m(c, s[pos..]) == m(c', s[pos + done..])
    {
      var rest := s[pos + done..];
      assert Law(t, m, c', rest) && rest[4..] == s[pos + done + 4..];
      c', done := DoLit4(t, c', rest), done + 4;
    }
  }

  method AllWords(t: Tables, c: Word, s: seq<Byte>, pos: nat, ghost m: Meaning) returns (c': Word, pos': nat)
    requires Laws(t, m) && pos <= |s|
    ensures pos' <= |s| && |s| - pos' < 4 && m(c, s[pos..]) == m(c', s[pos'..])
  {
    c', pos' := c, pos;
    while |s| - pos' >= 32
      invariant pos' <= |s| && m(c, s[pos..]) == m(c', s[pos'..])
    {
      c' := Words(t, c', s, pos', 32, m);
      pos' := pos' + 32;
    }
    while |s| - pos' >= 4
      invariant pos' <= |s| && m(c, s[pos..]) == m(c', s[pos'..])
    {
      c' := Words(t, c', s, pos', 4, m);
      pos' := pos' + 4;
    }
  }

  /**
   `crc32`, table path: single bytes up to a 16-byte boundary of the address, then 32 and 4 bytes at
   a time, then the tail. A null buffer gives the initial value.
   */
  method Checksum(t: Tables, crc: Word, buf: array?<Byte>, address: nat, len: nat) returns (r: Word)
    requires Slicing(t) && (buf != null ==> len <= buf.Length)
    ensures r == if buf == null then Zeros(32) else Crc32(t.poly, crc, buf[..len])
  {
    if buf == null { return Zeros(32); }
    var s := buf[..len];
    ghost var m := RegisterOf(t.poly);
    LookupsMeanRegister(t);
    assert s[0..] == s;
    var c, pos := Singles(t, Not(crc), s, 0, address, true, m);
    c, pos := AllWords(t, c, s, pos, m);
    c, pos := Singles(t, c, s, pos, address, false, m);
    assert Law(t, m, c, s[pos..]);
    r := Not(c);
  }

  // ---------------------------------------------------------------- hash blocks

  const BSIZE := 512 * 1024

  function ZeroBytes(n: nat): seq<Byte> { seq(n, i => Zeros(8)) }

  /** Hash block `block` of a file, padded with zeros up to the next 4 KiB border of the image. */
  function PaddedBlock(file: seq<Byte>, block: nat): seq<Byte>
    requires block * HASH_BLOCK < |file|
  {
    var start := block * HASH_BLOCK;
    var stored := Min(HASH_BLOCK, |file| - start);
    file[start..start + stored] + ZeroBytes(Min(HASH_BLOCK, RoundUp(|file|) - start) - stored)
  }

  /**
   The padded block in numbers: up to 16 MiB of the file from its place on, then zeros up to the next 4 KiB
   border, or none if the block is full.
   */
  lemma PaddedBlockIs(file: seq<Byte>, block: nat)
    requires block * 0x100_0000 < |file|
    ensures var start, b := block * 0x100_0000, PaddedBlock(file, block);
      && (|file| - start >= 0x100_0000 ==> |b| == 0x100_0000)
      && (|file| - start < 0x100_0000 ==> |b| % 4096 == 0 && |file| - start <= |b| < |file| - start + 4096)
      && (forall i :: 0 <= i < |b| && start + i < |file| ==> b[i] == file[start + i])
      && (forall i :: 0 <= i < |b| && start + i >= |file| ==>
            b[i] == [false, false, false, false, false, false, false, false])
  {
    Rounding(|file|);
    BlockBorder(block);
    if |file| - block * HASH_BLOCK < HASH_BLOCK { RoundUpWithin(|file|, (block + 1) * HASH_BLOCK); }
  }

  lemma BlockBorder(block: nat)
    ensures block * HASH_BLOCK % BLOCK == 0 && (block + 1) * HASH_BLOCK % BLOCK == 0
    ensures (block + 1) * HASH_BLOCK == block * HASH_BLOCK + HASH_BLOCK
  {
    assert HASH_BLOCK == BLOCK * 4096;
  }

  /**
   `image_calcBlockCrc32`: reads the block in whatever sizes `pread` returns, then continues with
   zeros. The k-th read answers sizes(k), cut to what was asked for; 0 or less is an error. The method
   fails exactly when one of the reads it makes fails. The bytes of the result lie in memory in
   little-endian order, on either kind of machine.
   */
  method CalcBlockCrc32(t: Tables, bigEndian: bool, file: seq<Byte>, block: nat, sizes: nat -> int, address: nat)
    returns (ok: bool, crc: Word)
    requires Slicing(t) && block * HASH_BLOCK < |file|
    ensures ok <==> AllRead(sizes, 0, Min(HASH_BLOCK, |file| - block * HASH_BLOCK))
    ensures ok ==> LeWord(InMemory(bigEndian, crc)) == Crc32(t.poly, Zeros(32), PaddedBlock(file, block))
  {
    var init := Checksum(t, Zeros(32), null, 0, 0);
    ghost var f := SumOf(t.poly, init);
    SumOfSums(t.poly, init);
    ok, crc := BlockSum(t, init, file, block, sizes, address, f);
    assert SumAt(t.poly, init, f, PaddedBlock(file, block));
    LittleEndian(bigEndian, crc);
    crc := NetOrder(bigEndian, crc);
  }

  /** Every read succeeds that is made, from the k-th on, until `rest` bytes are read. */
  predicate AllRead(sizes: nat -> int, k: nat, rest: nat)
    decreases rest
  {
    rest == 0 || (sizes(k) > 0 && AllRead(sizes, k + 1, rest - Min(sizes(k), Min(BSIZE, rest))))
  }

  /** `net_order_32`: turns the bytes of a word around on a big-endian machine. */
  function NetOrder(bigEndian: bool, w: Word): Word {
    if bigEndian then ByteAt(w, 3) + ByteAt(w, 2) + ByteAt(w, 1) + ByteAt(w, 0) else w
  }

  /** The bytes of a word as a machine stores them. */
  function InMemory(bigEndian: bool, w: Word): seq<Byte> {
    if bigEndian then [ByteAt(w, 3), ByteAt(w, 2), ByteAt(w, 1), ByteAt(w, 0)]
    else [ByteAt(w, 0), ByteAt(w, 1), ByteAt(w, 2), ByteAt(w, 3)]
  }

  /** On either kind of machine a word in net order lies in memory in little-endian order. */
  lemma LittleEndian(bigEndian: bool, w: Word)
    ensures LeWord(InMemory(bigEndian, NetOrder(bigEndian, w))) == w
  {
    var bytes := InMemory(bigEndian, NetOrder(bigEndian, w));
    forall k | 0 <= k < 4 ensures bytes[k] == ByteAt(w, k) {}
    LeWordSplit(bytes);
    ByteSplit(w);
  }

  method BlockSum(t: Tables, init: Word, file: seq<Byte>, block: nat, sizes: nat -> int, address: nat,
                  ghost f: seq<Byte> -> Word)
    returns (ok: bool, crc: Word)
    requires Slicing(t) && block * HASH_BLOCK < |file| && Sums(t.poly, init, f)
    ensures ok <==> AllRead(sizes, 0, Min(HASH_BLOCK, |file| - block * HASH_BLOCK))
    ensures ok ==> crc == f(PaddedBlock(file, block))
  {
    var start := block * HASH_BLOCK;
    var stored := Min(HASH_BLOCK, |file| - start);
    var total := Min(HASH_BLOCK, RoundUp(|file|) - start);
    ok, crc := ReadAll(t, init, file, start, start + stored, sizes, address, f);
    if ok { crc := Pad(t, init, crc, file[start..start + stored], total - stored, address, f); }
  }

  ghost function SumOf(p: Word, init: Word): seq<Byte> -> Word { (d: seq<Byte>) => Crc32(p, init, d) }

  lemma SumOfSums(p: Word, init: Word)
    ensures Sums(p, init, SumOf(p, init))
  {
  }

  /** f maps data to its checksum from init. Stated for one piece of data, and for all. */
  ghost predicate SumAt(p: Word, init: Word, f: seq<Byte> -> Word, d: seq<Byte>) { f(d) == Crc32(p, init, d) }

  ghost predicate Sums(p: Word, init: Word, f: seq<Byte> -> Word) { forall d :: SumAt(p, init, f, d) }

  /** The reading loop, over file bytes [start, end). */
  method ReadAll(t: Tables, init: Word, file: seq<Byte>, start: nat, end: nat, sizes: nat -> int, address: nat,
                 ghost f: seq<Byte> -> Word)
    returns (ok: bool, crc: Word)
    requires Slicing(t) && start <= end <= |file| && Sums(t.poly, init, f)
    ensures ok <==> AllRead(sizes, 0, end - start)
    ensures ok ==> crc == f(file[start..end])
  {
    crc := Begin(t.poly, init, f);
    var pos, k := start, 0;
    assert file[start..pos] == [];
    while pos < end
      invariant start <= pos <= end
      invariant crc == f(file[start..pos])
      invariant AllRead(sizes, 0, end - start) == AllRead(sizes, k, end - pos)
      decreases end - pos
    {
      var n := Min(sizes(k), Min(BSIZE, end - pos));
      k := k + 1;
      if n <= 0 { return false, crc; }
      var buffer := Fetch(file, pos, n);
      crc := Continue(t, init, file[start..pos], crc, buffer, n, address, f);
      assert file[start..pos] + file[pos..pos + n] == file[start..pos + n];
      pos := pos + n;
    }
    return true, crc;
  }

  /** The buffer after a `pread` of n bytes at pos. */
  method Fetch(file: seq<Byte>, pos: nat, n: nat) returns (buffer: array<Byte>)
    requires pos + n <= |file|
    ensures fresh(buffer) && buffer.Length == n && buffer[..n] == file[pos..pos + n]
  {
    buffer := new Byte[n](i requires 0 <= i < n => file[pos + i]);
  }

  method Begin(p: Word, init: Word, ghost f: seq<Byte> -> Word) returns (r: Word)
    requires Sums(p, init, f)
    ensures r == init == f([])
  {
    r := init;
    NotNot(init);
    assert SumAt(p, init, f, []);
  }

  /** Continues the checksum of data with the first len bytes of a buffer. */
  method Continue(t: Tables, init: Word, ghost data: seq<Byte>, crc: Word, buffer: array<Byte>, len: nat, address: nat,
                  ghost f: seq<Byte> -> Word)
    returns (r: Word)
    requires Slicing(t) && Sums(t.poly, init, f) && len <= buffer.Length && crc == f(data)
    ensures r == f(data + buffer[..len])
  {
    assert SumAt(t.poly, init, f, data) && SumAt(t.poly, init, f, data + buffer[..len]);
    CrcAppend(t.poly, init, data, buffer[..len]);
    r := Checksum(t, crc, buffer, address, len);
  }

  /** Continues a checksum with n zero bytes, BSIZE at a time. */
  method Pad(t: Tables, init: Word, crc: Word, ghost data: seq<Byte>, n: nat, address: nat, ghost f: seq<Byte> -> Word)
    returns (r: Word)
    requires Slicing(t) && Sums(t.poly, init, f) && crc == f(data)
    ensures r == f(data + ZeroBytes(n))
  {
    var buffer := new Byte[BSIZE](i => Zeros(8));
    r := crc;
    var bytes := n;
    assert data + ZeroBytes(0) == data;
    while bytes != 0
      invariant 0 <= bytes <= n
      invariant r == f(data + ZeroBytes(n - bytes))
      invariant buffer[..] == ZeroBytes(BSIZE)
      decreases bytes
    {
      var len := Min(BSIZE, bytes);
      r := Continue(t, init, data + ZeroBytes(n - bytes), r, buffer, len, address, f);
      assert buffer[..len] == buffer[..][..len];
      MoreZeros(data, n - bytes, len);
      bytes := bytes - len;
    }
  }

  lemma MoreZeros(data: seq<Byte>, m: nat, n: nat)
    requires n <= BSIZE
    ensures ZeroBytes(BSIZE)[..n] == ZeroBytes(n)
    ensures data + ZeroBytes(m) + ZeroBytes(n) == data + ZeroBytes(m + n)
  {
  }
}
