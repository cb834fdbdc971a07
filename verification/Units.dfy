/** Sizes and small functions shared by all components. */
module Units {
  /** Images are cached and requested in blocks of 4 KiB and checked in hash blocks of 16 MiB. */
  const BLOCK := 4096
  const HASH_BLOCK := 0x100_0000

  /** Eight bits, least significant first. */
  type Byte = s: seq<bool> | |s| == 8 witness [false, false, false, false, false, false, false, false]

  function Min(a: int, b: int): int { if a < b then a else b }

  function RoundDown(n: nat): nat { n / BLOCK * BLOCK }

  function RoundUp(n: nat): nat { (n + BLOCK - 1) / BLOCK * BLOCK }

  lemma Rounding(n: nat)
    ensures RoundDown(n) % BLOCK == 0 && RoundDown(n) <= n < RoundDown(n) + BLOCK
    ensures RoundUp(n) % BLOCK == 0 && n <= RoundUp(n) < n + BLOCK
  {
  }

  lemma RoundUpWithin(n: nat, size: nat)
    requires n <= size && size % BLOCK == 0
    ensures RoundUp(n) <= size
  {
  }

  lemma RoundUpExact(n: nat)
    requires n % BLOCK == 0
    ensures RoundUp(n) == n
  {
  }

  function Concat<T>(pieces: seq<seq<T>>): seq<T> {
    if pieces == [] then [] else pieces[0] + Concat(pieces[1..])
  }
}
