/** Facts about multiplication and division that the time models share. */
module Arithmetic {

  lemma Scale(p: int, q: int, a: int)
    requires a >= 0
    ensures p <= q ==> p * a <= q * a
  {
  }

  /** Quotient and remainder are determined by what they are. */
  lemma DivUnique(x: int, c: int, q: int, r: int)
    requires c > 0 && x == q * c + r && 0 <= r < c
    ensures x / c == q && x % c == r
  {
    var q', r' := x / c, x % c;
    assert (q - q') * c == r' - r;
    Scale(q - q', -1, c);
    Scale(1, q - q', c);
  }

  lemma DivFacts(x: int, c: int)
    requires c > 0
    ensures x == (x / c) * c + x % c && 0 <= x % c < c
    ensures x >= 0 ==> 0 <= x / c <= x
    ensures x >= c ==> x / c >= 1
    ensures 0 <= x < c ==> x / c == 0
  {
    var q := x / c;
    Scale(q, -1, c);
    Scale(q, 0, c);
    Scale(1, q, c);
    if q >= 0 {
      Scale(1, c, q);
    }
  }

  /** One more item in groups of c: quotient and remainder move like a counter that is reset at c. */
  lemma DivStep(n: nat, c: int)
    requires c > 0
    ensures n % c + 1 == c ==> (n + 1) / c == n / c + 1 && (n + 1) % c == 0
    ensures n % c + 1 != c ==> (n + 1) / c == n / c && (n + 1) % c == n % c + 1
    ensures 0 <= n / c
  {
    var q, r := n / c, n % c;
    DivFacts(n, c);
    if r + 1 == c {
      assert n + 1 == (q + 1) * c;
      DivUnique(n + 1, c, q + 1, 0);
    } else {
      DivUnique(n + 1, c, q, r + 1);
    }
  }

  /** A remainder times its step stays below what the whole steps make. */
  lemma RemainderBelow(f: int, c: int, step: int, r: int)
    requires step > 0 && 0 <= r < c && c * step <= f
    ensures 0 <= r * step < f
  {
    Scale(r + 1, c, step);
    Scale(0, r, step);
    assert (r + 1) * step == r * step + step;
  }

  /** Dividing twice is dividing by the product. */
  lemma DivTwice(n: nat, c: int, d: int)
    requires c > 0 && d > 0
    ensures c * d > 0 && n / c / d == n / (c * d)
  {
    var m, r := n / c, n % c;
    DivFacts(n, c);
    var k, n2 := m / d, m % d;
    DivFacts(m, d);
    Regroup(n, c, d, m, r, k, n2);
    DivUnique(n, c * d, k, n2 * c + r);
  }

  lemma Regroup(n: int, c: int, d: int, m: int, r: int, k: int, n2: int)
    requires c > 0 && d > 0 && n == m * c + r && m == k * d + n2 && 0 <= r < c && 0 <= n2 < d
    ensures n == k * (c * d) + (n2 * c + r) && 0 <= n2 * c + r < c * d
  {
    Distribute(k * d, n2, c);
    Associate(k, d, c);
    Scale(n2 + 1, d, c);
    Scale(0, n2, c);
    Distribute(n2, 1, c);
  }

  lemma Distribute(x: int, y: int, c: int)
    ensures (x + y) * c == x * c + y * c
  {
  }

  lemma Associate(k: int, d: int, c: int)
    ensures (k * d) * c == k * (c * d)
  {
    assert d * c == c * d;
  }

  predicate PowerOfTwo(x: int) {
    x == 1 || (x > 1 && x % 2 == 0 && PowerOfTwo(x / 2))
  }

  /** Of two powers of two the smaller divides the larger. */
  lemma {:induction false} PowersDivide(a: int, b: int)
    requires PowerOfTwo(a) && PowerOfTwo(b) && a <= b
    ensures b % a == 0
    decreases a
  {
    if a > 1 {
      PowersDivide(a / 2, b / 2);
      var k := (b / 2) / (a / 2);
      DivFacts(b / 2, a / 2);
      Associate(k, 2, a / 2);
      DivUnique(b, a, k, 0);
    }
  }

  /** A multiple of a multiple is a multiple. */
  lemma DividesOn(x: int, b: int, a: int)
    requires a > 0 && b > 0 && b % a == 0 && x % b == 0
    ensures x % a == 0
  {
    var q, k := x / b, b / a;
    DivFacts(x, b);
    DivFacts(b, a);
    Associate(q, k, a);
    DivUnique(x, a, q * k, 0);
  }
}
