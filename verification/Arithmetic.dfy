/** Division with remainder, for the modules whose proofs need it beyond constants. */
module Arithmetic {

  lemma NoMultipleBelow(d: int, e: int)
    requires d > 0 && -d < d * e < d
    ensures e == 0
  {
  }

  /** Quotient and remainder are the only pair of their kind. */
  lemma DivUnique(x: nat, d: nat, q: nat, r: nat)
    requires r < d && x == d * q + r
    ensures x / d == q && x % d == r
  {
    assert x == d * (x / d) + x % d;
    assert d * (x / d - q) == d * (x / d) - d * q;
    NoMultipleBelow(d, x / d - q);
  }
}
