/** The binary logarithm, rounded down. */
module Logarithm {

  function Pow2(k: nat): (r: nat)
    ensures r > 0
  {
    if k == 0 then 1 else 2 * Pow2(k - 1)
  }

  /** The greatest k with 2^k <= n. */
  function Log2(n: nat): nat
    requires n > 0
  {
    if n == 1 then 0 else 1 + Log2(n / 2)
  }

  lemma {:induction false} Log2Brackets(n: nat)
    requires n > 0
    ensures Pow2(Log2(n)) <= n < Pow2(Log2(n) + 1)
  {
    if n > 1 {
      Log2Brackets(n / 2);
    }
  }

  lemma {:induction false} Log2Mono(m: nat, n: nat)
    requires 0 < m <= n
    ensures Log2(m) <= Log2(n)
  {
    if m > 1 {
      Log2Mono(m / 2, n / 2);
    }
  }

  /** The bracket determines the logarithm. */
  lemma {:induction false} Log2Unique(n: nat, k: nat)
    requires n > 0 && Pow2(k) <= n < Pow2(k + 1)
    ensures Log2(n) == k
    decreases k
  {
    if k > 0 {
      Log2Unique(n / 2, k - 1);
    }
  }

  lemma {:induction false} LogBelow(n: nat, k: nat)
    requires 0 < n < Pow2(k)
    ensures Log2(n) < k
    decreases k
  {
    if n > 1 {
      LogBelow(n / 2, k - 1);
    }
  }

  lemma Log2OfPow2(k: nat)
    ensures Log2(Pow2(k)) == k
  {
    Log2Unique(Pow2(k), k);
  }
}
