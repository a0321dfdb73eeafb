// Division with remainder, as far as the sampling rules need it.

module Arithmetic {

  predicate Divides(d: int, x: nat)
    requires d > 0
  {
    x % d == 0
  }

  /** Division with remainder is unique. */
  lemma DivMod(x: int, q: int, r: int, S: int)
    requires 0 <= r < S && x == q * S + r
    ensures x % S == r && x / S == q
  {
    var d := x / S - q;
    assert d * S == r - x % S;
    ProductBound(d, S);
  }

  lemma ProductBound(d: int, S: int)
    requires S > 0
    ensures d >= 1 ==> d * S >= S
    ensures d <= -1 ==> d * S <= -S
  {
  }

  /** Among any S consecutive numbers one is a multiple of S. */
  lemma MultipleWithin(x: nat, S: nat) returns (d: nat)
    requires S > 0
    ensures d < S && Divides(S, x + d)
  {
    if x % S == 0 {
      d := 0;
    } else {
      d := S - x % S;
      DivMod(x + d, x / S + 1, 0, S);
    }
  }
}
