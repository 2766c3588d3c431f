/** The binary logarithm, rounded down. */
module Logarithm {
  import opened Machine

  function Log2(n: nat): nat {
    if n < 2 then 0 else 1 + Log2(n / 2)
  }

  lemma {:induction false} Log2Monotone(m: nat, n: nat)
    requires m <= n
    ensures Log2(m) <= Log2(n)
    decreases n
  {
    if m >= 2 { Log2Monotone(m / 2, n / 2); }
  }

  /** The bound is the floor of the binary logarithm. */
  lemma {:induction false} Log2IsFloor(n: nat)
    requires n >= 1
    ensures Pow2(Log2(n)) <= n < Pow2(Log2(n) + 1)
    decreases n
  {
    if n >= 2 { Log2IsFloor(n / 2); }
  }
}
