/** Intervals of integers, and division facts the solver does not find by itself. */
module Arith {
  function Max(a: int, b: int): int { if a > b then a else b }

  function Min(a: int, b: int): int { if a < b then a else b }

  /** The integers from a up to b. */
  ghost function Span(a: int, b: int): (s: set<int>)
    ensures forall u :: u in s <==> a <= u < b
    decreases b - a
  {
    if a >= b then {} else {a} + Span(a + 1, b)
  }

  lemma MultipleGrows(k: int, d: int)
    requires d > 0
    ensures (k >= 1 ==> k * d >= d) && (k <= -1 ==> k * d <= -d)
  {
  }

  /** Quotient and remainder are unique. */
  lemma DivMod(x: int, d: int, q: int, r: int)
    requires d > 0 && x == q * d + r && 0 <= r < d
    ensures x / d == q && x % d == r
  {
    assert x == x / d * d + x % d;
    assert (x / d - q) * d == r - x % d;
    MultipleGrows(x / d - q, d);
  }
}
