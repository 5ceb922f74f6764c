/** Products and remainders, in steps small enough to be quick. */
module Arith {

  lemma {:induction false} MulDiff(m: int, p: int, q: int)
    ensures m * (p - q) == m * p - m * q
  {
  }

  lemma {:induction false} AtLeastOnce(m: int, k: int)
    requires m > 0 && k >= 1
    ensures m * k >= m
  {
  }

  lemma {:induction false} DivMod(x: int, m: int)
    requires m > 0
    ensures x == m * (x / m) + x % m && 0 <= x % m < m
  {
  }

  lemma {:induction false} RemainderUnique(x: int, m: int, q: int, r: int, q': int, r': int)
    requires m > 0 && 0 <= r < m && x == m * q + r
    requires 0 <= r' < m && x == m * q' + r'
    ensures r == r'
  {
    MulDiff(m, q, q');
    MulDiff(m, q', q);
    if q > q' {
      AtLeastOnce(m, q - q');
    } else if q < q' {
      AtLeastOnce(m, q' - q);
    }
  }

  lemma {:induction false} RemainderIs(x: int, m: int, q: int, r: int)
    requires m > 0 && 0 <= r < m && x == m * q + r
    ensures x % m == r
  {
    DivMod(x, m);
    RemainderUnique(x, m, q, r, x / m, x % m);
  }

  /** Less than m past a multiple of m is no multiple; m past one is. */
  lemma {:induction false} PastMultiple(a: int, m: int, d: int)
    requires m > 0 && a % m == 0 && 0 <= d <= m
    ensures (a + d) % m == 0 <==> d == 0 || d == m
  {
    var q := a / m;
    DivMod(a, m);
    if d < m {
      RemainderIs(a + d, m, q, d);
    } else {
      MulDiff(m, q, -1);
      RemainderIs(a + d, m, q + 1, 0);
    }
  }
}
