/** Division facts the solver does not find by itself. */
module Arithmetic {

  lemma {:induction false} AtLeast(k: int, n: int)
    requires k >= 1 && n >= 0
    ensures k * n >= n
  {
    assert k * n == n + (k - 1) * n;
    assert (k - 1) * n >= 0;
  }

  /** Quotient and remainder are unique. */
  lemma {:induction false} Remainder(a: int, q: int, r: int, n: int)
    requires n > 0 && 0 <= r < n && a == q * n + r
    ensures a % n == r && a / n == q
  {
    var q', r' := a / n, a % n;
    var d := q - q';
    assert a == q' * n + r';
    assert d * n == q * n - q' * n == r' - r;
    if d > 0 { AtLeast(d, n); } else if d < 0 { AtLeast(-d, n); }
  }

  lemma {:induction false} Multiple(q: int, n: int)
    requires n > 0
    ensures (q * n) % n == 0 && (q * n) / n == q
  {
    Remainder(q * n, q, 0, n);
  }

  lemma {:induction false} Distribute(a: int, b: int, n: int)
    ensures (a + b) * n == a * n + b * n
    ensures (a - b) * n == a * n - b * n
  {
  }

  lemma {:induction false} Scale(a: nat, b: nat, p: nat)
    requires a <= b
    ensures a * p <= b * p
  {
    Distribute(b, a, p);
    assert (b - a) * p >= 0;
  }

  lemma {:induction false} Commute(x: int, y: int)
    ensures x * y == y * x
  {
  }

  lemma {:induction false} Regroup(x: int, y: int, z: int)
    ensures (x * y) * z == (y * z) * x
  {
  }

  lemma {:induction false} ScaleDown(a: nat, b: nat, p: nat)
    requires p > 0 && a * p <= b * p
    ensures a <= b
  {
    if a > b {
      Scale(b + 1, a, p);
      Distribute(b, 1, p);
    }
  }

  function Div(a: nat, b: nat): nat
    requires b > 0
  {
    a / b
  }
}
