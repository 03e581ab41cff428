/** Division with remainder, stated so that proofs need not search for it. */
module Arithmetic {

  /** A quotient and a remainder are the quotient and the remainder. */
  lemma Quotient(n: nat, d: nat, q: nat, r: nat)
    requires d > 0 && r < d && n == d * q + r
    ensures n / d == q && n % d == r
  {
    var e := n / d - q;
    assert d * e == r - n % d;
    Multiple(d, e);
  }

  lemma Multiple(d: int, e: int)
    requires d >= 0
    ensures e >= 1 ==> d * e >= d
    ensures e <= -1 ==> d * e <= -d
  {
  }
}
