/** Facts about integers, division by a variable above all, that several of the models share. */
module Division {

  function Max(a: int, b: int): int { if a > b then a else b }
  function Min(a: int, b: int): int { if a < b then a else b }

  lemma DivIs(x: int, n: int, q: int, r: int)
    requires x == n * q + r && 0 <= r < n
    ensures x / n == q && x % n == r
  {
    var d := x / n - q;
    assert n * d == r - x % n;
    if d >= 1 {
      MulGrows(n, d, 1);
    } else if d <= -1 {
      MulGrows(n, -1, d);
    }
  }

  lemma MulGrows(n: int, a: int, b: int)
    requires n >= 0 && a >= b
    ensures n * a >= n * b
  {
    assert n * a - n * b == n * (a - b);
  }

  /** Dividing a sum loses at most one against dividing the parts. */
  lemma DivOfSum(a: int, b: int, n: int)
    requires n > 0
    ensures a / n + b / n <= (a + b) / n <= a / n + b / n + 1
  {
    var r := a % n + b % n;
    assert a + b == n * (a / n + b / n) + r;
    if r < n {
      DivIs(a + b, n, a / n + b / n, r);
    } else {
      assert a + b == n * (a / n + b / n + 1) + (r - n);
      DivIs(a + b, n, a / n + b / n + 1, r - n);
    }
  }

  lemma MulCancels(n: int, a: int, b: int)
    requires n > 0 && n * a <= n * b
    ensures a <= b
  {
    if a > b {
      MulGrows(n, a, b + 1);
    }
  }

  lemma DivBounds(x: int, n: int, low: int, high: int)
    requires n > 0 && n * low <= x <= n * high
    ensures low <= x / n <= high
  {
    var k := x / n;
    assert n * k <= x < n * k + n;
    assert n * (k + 1) == n * k + n;
    MulCancels(n, k, high);
    assert low <= k by {
      if low >= k + 1 { MulGrows(n, low, k + 1); }
    }
  }

  /** One of n equal gaps taken off. */
  lemma OneLess(gap: int, n: int)
    requires n > 0 && gap >= 0
    ensures gap * n == gap * (n - 1) + gap && gap * (n - 1) >= 0
  {
    MulGrows(gap, n - 1, 0);
  }
}
