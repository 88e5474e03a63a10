/** Powers of two, right shifts and sequence splitting, in the linear form the proofs use. */
module Bits {
  function Min(a: nat, b: nat): nat {
    if a < b then a else b
  }

  function Pow2(n: nat): (r: nat)
    ensures r > 0
  {
    if n == 0 then 1 else 2 * Pow2(n - 1)
  }

  /** n / 2^k, as the k-fold halving a level-by-level loop performs. */
  function Shift(n: nat, k: nat): nat {
    if k == 0 then n else Shift(n, k - 1) / 2
  }

  lemma ShiftOnce(n: nat, k: nat)
    ensures Shift(n, 0) == n && Shift(n, k + 1) == Shift(n, k) / 2
  {
  }

  lemma {:induction false} ShiftHalf(n: nat, k: nat)
    ensures Shift(n / 2, k) == Shift(n, k + 1)
  {
    if k > 0 {
      ShiftHalf(n, k - 1);
    }
  }

  lemma {:induction false} ShiftZero(n: nat, k: nat)
    ensures Shift(n, k) == 0 <==> n < Pow2(k)
    decreases k
  {
    if k > 0 {
      ShiftHalf(n, k - 1);
      ShiftZero(n / 2, k - 1);
    }
  }

  /** Shifting commutes with the order. */
  lemma {:induction false} ShiftMonotone(m: nat, n: nat, k: nat)
    requires m <= n
    ensures Shift(m, k) <= Shift(n, k)
  {
    if k > 0 {
      ShiftMonotone(m, n, k - 1);
    }
  }

  /** Counting one further either stays under the same ancestor or opens the next one. */
  lemma {:induction false} ShiftSuccessor(n: nat, k: nat)
    ensures Shift(n + 1, k) == Shift(n, k) || Shift(n + 1, k) == Shift(n, k) + 1
  {
    if k > 0 {
      ShiftSuccessor(n, k - 1);
    }
  }

  lemma SplitEqual<T>(a: seq<T>, b: seq<T>, c: seq<T>, d: seq<T>)
    requires a + b == c + d
    requires |a| == |c|
    ensures a == c && b == d
  {
    assert a == (a + b)[..|a|] && c == (c + d)[..|c|];
    assert b == (a + b)[|a|..] && d == (c + d)[|c|..];
  }

  // The few facts about products and quotients the arithmetic proofs name explicitly.

  lemma MulAssociates(a: int, b: int, c: int)
    ensures a * (b * c) == (a * b) * c
  {
  }

  lemma MulMonotone(a: nat, b: nat, c: nat, d: nat)
    requires a <= b && c <= d
    ensures a * c <= b * d
  {
    assert b * d - a * c == b * (d - c) + (b - a) * c;
  }

  lemma DivMod(n: nat, d: nat)
    requires d > 0
    ensures n == (n / d) * d + n % d && n % d < d && n / d >= 0
  {
  }

  lemma QuotientUnique(n: nat, d: nat, q: int, r: nat)
    requires n == q * d + r && r < d
    ensures n / d == q && n % d == r
  {
    DivMod(n, d);
    var t := q - n / d;
    assert t * d == n % d - r;
  }

  lemma DivAtMost(n: nat, d: nat)
    requires d > 0
    ensures n / d <= n
  {
    DivMod(n, d);
    MulMonotone(n / d, n / d, 1, d);
  }
}
