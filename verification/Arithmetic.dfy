/** Multiplication, division and remainder facts the solver is given one at a time. */
module Arithmetic {

  const TWO64: nat := 0x1_0000_0000_0000_0000

  function Max(a: int, b: int): int { if a < b then b else a }

  function Min(a: int, b: int): int { if a < b then a else b }

  /** A quotient rounded down, of naturals. */
  function Quot(n: nat, d: nat): nat
    requires d > 0
  {
    n / d
  }

  function Times(a: nat, b: nat): nat { a * b }

  lemma MulAtLeast(n: int, d: int)
    requires n > 0 && d >= 1
    ensures n * d >= n
  {
  }

  lemma MulMonotone(a: nat, b: nat, c: nat)
    requires a <= b
    ensures a * c <= b * c && c * a <= c * b
  {
  }

  lemma FloorDiv(n: nat, d: nat)
    requires d > 0
    ensures Quot(n, d) * d <= n < (Quot(n, d) + 1) * d
  {
    assert n == d * (n / d) + n % d;
  }

  lemma DivideOut(x: nat, y: nat, d: nat)
    requires d > 0 && x * d <= y * d
    ensures x <= y
  {
    if y < x { MulMonotone(y + 1, x, d); }
  }

  /** A quotient is the largest integer whose multiple stays below. */
  lemma FloorIsGreatest(n: nat, d: nat, y: nat)
    requires d > 0
    ensures y * d <= n <==> y <= Quot(n, d)
  {
    FloorDiv(n, d);
    hide Quot;
    if y <= Quot(n, d) { MulMonotone(y, Quot(n, d), d); }
    if Quot(n, d) + 1 <= y { MulMonotone(Quot(n, d) + 1, y, d); }
  }

  lemma ModUnique(a: int, n: int, q: int, r: int)
    requires n > 0 && a == q * n + r && 0 <= r < n
    ensures a % n == r && a / n == q
  {
    var k, m := a / n, a % n;
    assert a == n * k + m;
    assert n * (q - k) == m - r by { assert n * (q - k) == n * q - n * k; }
    if q > k { MulAtLeast(n, q - k); }
    if k > q { MulAtLeast(n, k - q); }
  }
}
