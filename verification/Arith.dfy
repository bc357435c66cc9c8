/** Division and remainder by a variable. */
module Arith {
  lemma MulApart(d: int, m: int)
    requires m > 0
    ensures d >= 1 ==> d * m >= m
    ensures d <= -1 ==> d * m <= -m
  {
  }

  /** Quotient and remainder are unique. */
  lemma DivModUnique(x: nat, m: int, q: nat, r: nat)
    requires m > 0 && x == q * m + r && r < m
    ensures x / m == q && x % m == r
  {
    var d := x / m - q;
    assert d * m == (x / m) * m - q * m;
    MulApart(d, m);
  }

  lemma Regroup(q: int, b: int, r: int, a: int)
    ensures (q * b + r) * a == q * (a * b) + r * a
  {
    assert (q * b + r) * a == (q * b) * a + r * a;
    assert (q * b) * a == q * (b * a);
  }

  lemma DivDiv(x: nat, a: nat, b: nat)
    requires a > 0 && b > 0
    ensures a * b > 0 && x / a / b == x / (a * b)
  {
    MulApart(b, a);
    DivDivOf(x, a, b, x / a, x % a, x / a / b, x / a % b);
  }

  /** Two divisions, by their quotients and remainders. */
  lemma DivDivOf(x: nat, a: nat, b: nat, q: nat, r: nat, q': nat, r': nat)
    requires a > 0 && b > 0 && a * b > 0
    requires x == q * a + r && r < a && q == q' * b + r' && r' < b
    ensures x / (a * b) == q'
  {
    Regroup(q', b, r', a);
    MulLe(r', b - 1, a);
    assert (b - 1) * a == a * b - a;
    var rest := r' * a + r;
    assert 0 <= r' * a by { MulLe(0, r', a); }
    DivModUnique(x, a * b, q', rest);
  }

  lemma MulLe(x: int, y: int, m: nat)
    requires x <= y
    ensures x * m <= y * m
  {
  }
}
