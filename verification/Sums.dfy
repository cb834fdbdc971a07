/** Sums of an integer weight over a sequence, and how they react to one change. */
module Sums {

  ghost function SumBy<T>(s: seq<T>, f: T -> int): int {
    if s == [] then 0 else f(s[0]) + SumBy(s[1..], f)
  }

  lemma {:induction false} SumUpdate<T>(s: seq<T>, i: nat, x: T, f: T -> int)
    requires i < |s|
    ensures SumBy(s[i := x], f) == SumBy(s, f) - f(s[i]) + f(x)
  {
    if i == 0 {
      assert s[0 := x][1..] == s[1..];
    } else {
      assert s[i := x][1..] == s[1..][i - 1 := x];
      SumUpdate(s[1..], i - 1, x, f);
    }
  }

  /** If h is f plus g on every element, the sums add up. */
  lemma {:induction false} SumPlus<T>(s: seq<T>, f: T -> int, g: T -> int, h: T -> int)
    requires forall i :: 0 <= i < |s| ==> h(s[i]) == f(s[i]) + g(s[i])
    ensures SumBy(s, h) == SumBy(s, f) + SumBy(s, g)
  {
    if s != [] {
      forall i | 0 <= i < |s[1..]| ensures h(s[1..][i]) == f(s[1..][i]) + g(s[1..][i]) {
        assert s[1..][i] == s[i + 1];
      }
      SumPlus(s[1..], f, g, h);
    }
  }

  lemma {:induction false} SumEqual<T>(s: seq<T>, f: T -> int, h: T -> int)
    requires forall i :: 0 <= i < |s| ==> h(s[i]) == f(s[i])
    ensures SumBy(s, h) == SumBy(s, f)
  {
    if s != [] {
      forall i | 0 <= i < |s[1..]| ensures h(s[1..][i]) == f(s[1..][i]) {
        assert s[1..][i] == s[i + 1];
      }
      SumEqual(s[1..], f, h);
    }
  }

  lemma {:induction false} SumNonNegative<T>(s: seq<T>, f: T -> int)
    requires forall i :: 0 <= i < |s| ==> f(s[i]) >= 0
    ensures SumBy(s, f) >= 0
  {
    if s != [] {
      forall i | 0 <= i < |s[1..]| ensures f(s[1..][i]) >= 0 {
        assert s[1..][i] == s[i + 1];
      }
      SumNonNegative(s[1..], f);
    }
  }

  /** With non-negative weights each element is bounded by the sum. */
  lemma {:induction false} SumAtLeast<T>(s: seq<T>, i: nat, f: T -> int)
    requires i < |s|
    requires forall j :: 0 <= j < |s| ==> f(s[j]) >= 0
    ensures f(s[i]) <= SumBy(s, f)
  {
    forall j | 0 <= j < |s[1..]| ensures f(s[1..][j]) >= 0 {
      assert s[1..][j] == s[j + 1];
    }
    if i == 0 {
      SumNonNegative(s[1..], f);
    } else {
      SumAtLeast(s[1..], i - 1, f);
    }
  }

  lemma {:induction false} SumZero<T>(s: seq<T>, f: T -> int)
    requires forall j :: 0 <= j < |s| ==> f(s[j]) == 0
    ensures SumBy(s, f) == 0
  {
    if s != [] {
      forall j | 0 <= j < |s[1..]| ensures f(s[1..][j]) == 0 {
        assert s[1..][j] == s[j + 1];
      }
      SumZero(s[1..], f);
    }
  }

  /** A pointwise bound between two weights, strict somewhere by the given gap, carries over to the sums. */
  lemma {:induction false} SumBelow<T>(s: seq<T>, i: nat, f: T -> int, g: T -> int)
    requires i < |s|
    requires forall j :: 0 <= j < |s| ==> f(s[j]) <= g(s[j])
    ensures SumBy(s, f) + g(s[i]) - f(s[i]) <= SumBy(s, g)
  {
    forall j | 0 <= j < |s[1..]| ensures f(s[1..][j]) <= g(s[1..][j]) {
      assert s[1..][j] == s[j + 1];
    }
    if i > 0 {
      SumBelow(s[1..], i - 1, f, g);
    } else if |s| > 1 {
      SumBelow(s[1..], 0, f, g);
    }
  }

  lemma {:induction false} SumConcat<T>(s: seq<T>, t: seq<T>, f: T -> int)
    ensures SumBy(s + t, f) == SumBy(s, f) + SumBy(t, f)
  {
    if s == [] {
      assert s + t == t;
    } else {
      assert (s + t)[1..] == s[1..] + t;
      SumConcat(s[1..], t, f);
    }
  }

  lemma SumLast<T>(s: seq<T>, f: T -> int)
    requires s != []
    ensures SumBy(s, f) == SumBy(s[..|s| - 1], f) + f(s[|s| - 1])
  {
    SumConcat(s[..|s| - 1], [s[|s| - 1]], f);
    assert s[..|s| - 1] + [s[|s| - 1]] == s;
  }

  lemma SumInsert<T>(s: seq<T>, k: nat, x: T, f: T -> int)
    requires k <= |s|
    ensures SumBy(s[..k] + [x] + s[k..], f) == SumBy(s, f) + f(x)
  {
    SumConcat(s[..k] + [x], s[k..], f);
    SumConcat(s[..k], [x], f);
    SumConcat(s[..k], s[k..], f);
    assert s[..k] + s[k..] == s;
  }

  lemma SumRemove<T>(s: seq<T>, k: nat, f: T -> int)
    requires k < |s|
    ensures SumBy(s[..k] + s[k + 1..], f) == SumBy(s, f) - f(s[k])
  {
    SumConcat(s[..k], s[k + 1..], f);
    SumConcat(s[..k], [s[k]], f);
    SumConcat(s[..k] + [s[k]], s[k + 1..], f);
    assert s[..k] + [s[k]] + s[k + 1..] == s;
  }
}
