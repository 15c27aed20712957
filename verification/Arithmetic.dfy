/** Facts about products and remainders used in several places. */
module Arithmetic {

  function Min(a: int, b: int): (r: int) { if a < b then a else b }

  function Max(a: int, b: int): (r: int) { if a < b then b else a }

  lemma ProductBound(d: int, v: int)
    requires v > 0
    ensures d >= 1 ==> d * v >= v
    ensures d <= -1 ==> d * v <= -v
  {
    if d >= 1 {
      assert (d - 1) * v >= 0;
    } else if d <= -1 {
      assert (-d - 1) * v >= 0;
    }
  }

  lemma DivisionIsUnique(x: int, v: int, q: int, k: int)
    requires v > 0 && 0 <= k < v && x == q * v + k
    ensures x / v == q && x % v == k
  {
    var d := q - x / v;
    assert x == (x / v) * v + x % v;
    assert d * v == q * v - (x / v) * v;
    ProductBound(d, v);
  }

  lemma Spread(a: int, s: int, v: int, e: int)
    ensures (a + s * v) * e == s * (v * e) + a * e
  {
  }

  /** Numbers with a quotient and a remainder compare lexicographically. */
  lemma Lexicographic(i: int, j: int, q: int, r: int, p: int)
    requires 0 <= j < p && 0 <= r < p
    ensures i * p + j < q * p + r <==> i < q || (i == q && j < r)
  {
    assert (q - i) * p == q * p - i * p;
    ProductBound(q - i, p);
  }

  lemma Regroup(q: int, i: int, n: int, k: int, b: int)
    requires q == i * n + k
    ensures q * b == i * (n * b) + k * b
  {
  }

  lemma DivMod(x: int, v: int)
    requires v > 0
    ensures x == (x / v) * v + x % v && 0 <= x % v < v && (x >= 0 ==> x / v >= 0)
  {
  }

  lemma ProductSign(a: int, b: int)
    requires b >= 0
    ensures a >= 0 ==> a * b >= 0
    ensures a * b > 0 ==> a > 0
  {
  }

  lemma Reorder(a: int, b: int, c: int)
    ensures (a * b) * c == (a * c) * b
  {
  }
}
