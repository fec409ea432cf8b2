/** Facts about products, quotients and remainders, each small enough to be used alone. */
module Arith {

  lemma Successor(q: int, d: int)
    ensures (q + 1) * d == q * d + d
  {
  }

  lemma MulMono(a: int, b: int, d: nat)
    requires a <= b
    ensures a * d <= b * d
  {
    var e := b - a;
    assert b * d == a * d + e * d;
    assert e * d >= 0;
  }

  /** A number has one quotient and one remainder. */
  lemma DivModUnique(d: nat, q: nat, r: nat)
    requires r < d
    ensures q * d + r >= 0
    ensures (q * d + r) / d == q && (q * d + r) % d == r
  {
    var q' := (q * d + r) / d;
    Successor(q, d);
    Successor(q', d);
    if q < q' { MulMono(q + 1, q', d); }
    if q' < q { MulMono(q' + 1, q, d); }
  }

  lemma DivModSplit(a: nat, d: nat)
    requires d > 0
    ensures a / d >= 0 && a % d < d && a == (a / d) * d + a % d
  {
  }

  /** Row `q` of `n` rows of length `d` ends before the rows do. */
  lemma RowFits(q: nat, r: nat, d: nat, n: nat)
    requires q < n && r < d
    ensures 0 <= q * d + r < n * d
  {
    Successor(q, d);
    MulMono(q + 1, n, d);
    MulMono(0, q, d);
  }

  lemma RowOf(a: nat, d: nat, n: nat)
    requires d > 0 && a < n * d
    ensures 0 <= a / d < n
  {
    DivModSplit(a, d);
    if a / d >= n { MulMono(n, a / d, d); }
  }
}
