/** Integer division by a positive number. */
module Division {
  lemma MulCancel(r: int, x: int, y: int)
    ensures r > 0 && r * x < r * y ==> x < y
  {
  }

  lemma DivIs(a: int, r: int, q: int)
    requires r > 0 && r * q <= a < r * (q + 1)
    ensures a / r == q
  {
    MulCancel(r, q, a / r + 1);
    MulCancel(r, a / r, q + 1);
  }

  lemma DivShift(a: int, r: int, k: int)
    requires r > 0
    ensures (a - k * r) / r == a / r - k
  {
    var q := a / r;
    assert r * q <= a < r * (q + 1);
    assert r * (q - k) == r * q - k * r && r * (q - k + 1) == r * (q + 1) - k * r;
    DivIs(a - k * r, r, q - k);
  }

  lemma DivMono(a: int, b: int, r: int)
    requires r > 0 && a <= b
    ensures a / r <= b / r
  {
    MulCancel(r, a / r, b / r + 1);
  }

  lemma DivPlus(a: int, b: int, r: int)
    requires r > 0
    ensures a / r + b / r <= (a + b) / r
  {
    DivShift(a + b, r, a / r);
    assert a + b - a / r * r == a % r + b;
    DivMono(b, a % r + b, r);
  }

  lemma ModIs(x: int, q: int, r: int, n: int)
    requires n > 0 && x == r + q * n && 0 <= r < n
    ensures x % n == r
  {
    assert n * q <= x < n * (q + 1);
    DivIs(x, n, q);
    assert x == x / n * n + x % n;
  }
}
