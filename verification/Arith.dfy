/** The smaller and the larger, multiples and quotients. */
module Arith {
  function Min(a: int, b: int): int { if a < b then a else b }
  function Max(a: int, b: int): int { if a < b then b else a }

  lemma {:induction false} Multiples(a: nat, b: nat, m: nat)
    requires a <= b
    ensures a * m <= b * m
    decreases b - a
  {
    if a < b {
      Multiples(a, b - 1, m);
      assert b * m == (b - 1) * m + m;
    }
  }

  lemma OneMore(a: nat, m: nat)
    ensures (a + 1) * m == a * m + m
  {
  }

  lemma DivBounds(n: nat, m: nat)
    requires m > 0
    ensures (n / m) * m <= n < (n / m) * m + m && n % m == n - (n / m) * m
  {
  }

  lemma DivIs(n: nat, m: nat, q: nat)
    requires m > 0 && q * m <= n < q * m + m
    ensures n / m == q && n % m == n - q * m
  {
    var p := n / m;
    DivBounds(n, m);
    OneMore(p, m);
    OneMore(q, m);
    if p < q { Multiples(p + 1, q, m); }
    if p > q { Multiples(q + 1, p, m); }
  }

  lemma NextRemainder(k: nat, m: nat)
    requires m > 0
    ensures (k + 1) % m == if k % m + 1 < m then k % m + 1 else 0
  {
    var q := k / m;
    DivBounds(k, m);
    if k % m + 1 < m {
      DivIs(k + 1, m, q);
    } else {
      OneMore(q, m);
      DivIs(k + 1, m, q + 1);
    }
  }
}
