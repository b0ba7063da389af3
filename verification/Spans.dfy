/** Multiples, and division by them. */
module Spans {
  /** The length of `n` pieces of size `c`: their product, but counted up, which proofs follow more easily. */
  function Span(n: nat, c: nat): nat {
    if n == 0 then 0 else Span(n - 1, c) + c
  }

  lemma {:induction false} SpanIsProduct(n: nat, c: nat)
    ensures Span(n, c) == n * c
  {
    if n > 0 { SpanIsProduct(n - 1, c); }
  }

  lemma {:induction false} SpanGrows(a: nat, b: nat, c: nat)
    requires a <= b
    ensures Span(a, c) <= Span(b, c) && (a < b ==> Span(a, c) + c <= Span(b, c))
  {
    if a < b { SpanGrows(a, b - 1, c); }
  }

  lemma DivMod(q: nat, c: nat)
    requires c > 0
    ensures q == Span(q / c, c) + q % c && q % c < c
  {
    SpanIsProduct(q / c, c);
    Division(q, c);
  }

  lemma Division(q: nat, c: nat)
    requires c > 0
    ensures q == (q / c) * c + q % c
  {
    assert q == c * (q / c) + q % c;
  }

  lemma QuotientIs(c: nat, n: nat, r: nat)
    requires r < c
    ensures (Span(n, c) + r) / c == n && (Span(n, c) + r) % c == r
  {
    var q := (Span(n, c) + r) / c;
    DivMod(Span(n, c) + r, c);
    SpanGrows(if q < n then q else n, if q < n then n else q, c);
  }

  lemma OneMore(n: nat, c: nat)
    ensures Span(n + 1, c) == Span(n, c) + c
  {}
}
