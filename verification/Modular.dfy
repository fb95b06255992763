/** Facts about division and remainder that every wrapping counter and ring index needs. */
module Modular {

  lemma MulGrows(k: int, n: int)
    requires 1 <= k && 0 < n
    ensures k * n >= n
  {
    assert k * n == n + (k - 1) * n;
  }

  /** Quotient and remainder are unique. */
  lemma ModUnique(a: int, q: int, r: int, n: int)
    requires 0 < n && a == q * n + r && 0 <= r < n
    ensures a % n == r && a / n == q
  {
    var d := q - a / n;
    assert d * n == a % n - r by {
      assert a == a / n * n + a % n;
      assert d * n == q * n - a / n * n;
    }
    if d >= 1 {
      MulGrows(d, n);
    } else if d <= -1 {
      MulGrows(-d, n);
    }
    assert d == 0;
  }

  lemma ModStep(a: int, n: int)
    requires 0 < n
    ensures (a + n) % n == a % n
    ensures (a + n) / n == a / n + 1
  {
    assert a + n == (a / n + 1) * n + a % n;
    ModUnique(a + n, a / n + 1, a % n, n);
  }

  /** Adding less than one turn wraps at most once. */
  lemma ModAdd(a: int, b: int, n: int)
    requires 0 < n && 0 <= b < n
    ensures (a + b) % n == if a % n + b < n then a % n + b else a % n + b - n
    ensures (a + b) / n == if a % n + b < n then a / n else a / n + 1
  {
    assert a == a / n * n + a % n;
    if a % n + b < n {
      ModUnique(a + b, a / n, a % n + b, n);
    } else {
      assert a + b == (a / n + 1) * n + (a % n + b - n);
      ModUnique(a + b, a / n + 1, a % n + b - n, n);
    }
  }

  /** Two numbers less than one turn apart are told apart by their remainders. */
  lemma ModDistinct(a: int, b: int, n: int)
    requires 0 < n && a < b < a + n
    ensures a % n != b % n
  {
    ModAdd(a, b - a, n);
  }
}
