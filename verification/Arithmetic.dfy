/** Facts about products and remainders, each small enough to be used by name. */
module Arithmetic {

  lemma Distribute(a: int, b: int, c: int)
    ensures (a + b) * c == a * c + b * c
  {
  }

  lemma Monotone(a: int, x: int, y: int)
    requires a >= 0 && x <= y
    ensures a * x <= a * y
  {
  }

  /** Division with remainder. */
  lemma DivMod(x: nat, m: nat)
    requires m > 0
    ensures x == x / m * m + x % m && x % m < m
  {
  }

  /** The remainder is determined by any such representation. */
  lemma RemainderUnique(x: nat, m: nat, q: int, r: nat)
    requires r < m && x == q * m + r
    ensures x % m == r
  {
    var d := x / m - q;
    DivMod(x, m);
    Distribute(x / m, -q, m);
    if d >= 1 {
      Monotone(m, 1, d);
    } else if d <= -1 {
      Monotone(m, d, -1);
    }
  }

  lemma RemainderNext(x: nat, m: nat)
    requires m > 0
    ensures (x + 1) % m == if x % m + 1 == m then 0 else x % m + 1
  {
    var q, r := x / m, x % m;
    DivMod(x, m);
    if r + 1 == m {
      Distribute(q, 1, m);
      RemainderUnique(x + 1, m, q + 1, 0);
    } else {
      RemainderUnique(x + 1, m, q, r + 1);
    }
  }

  /** Adding a multiple keeps the remainder. */
  lemma RemainderShift(x: nat, m: nat, k: nat)
    requires m > 0
    ensures (x + k * m) % m == x % m
  {
    DivMod(x, m);
    Distribute(x / m, k, m);
    RemainderUnique(x + k * m, m, x / m + k, x % m);
  }

  lemma MultipleBelow(n: int, d: int)
    requires n > 0 && 0 <= n * d < n
    ensures d == 0
  {
    if d >= 1 {
      Monotone(n, 1, d);
    } else if d <= -1 {
      Monotone(n, d, -1);
    }
  }
}
