/** Facts about Euclidean division that the calendar and the step loops use. */
module Arithmetic {

  lemma FloorStep(y: int, n: int)
    requires n > 1
    ensures y / n == (y - 1) / n + (if y % n == 0 then 1 else 0)
  {
    var q := (y - 1) / n;
    var r := (y - 1) % n;
    assert y == n * q + (r + 1);
    if r + 1 < n {
      DivUnique(y, n, q, r + 1);
    } else {
      assert y == n * (q + 1) + 0;
      DivUnique(y, n, q + 1, 0);
    }
  }

  lemma DivUnique(x: int, n: int, q: int, r: int)
    requires n > 0 && 0 <= r < n && x == n * q + r
    ensures x / n == q && x % n == r
  {
    var d := x / n - q;
    assert n * d == r - x % n;
    assert d >= 1 ==> n * d >= n;
    assert d <= -1 ==> n * d <= -n;
  }

  lemma ModShift(x: int, n: int)
    requires n > 0
    ensures (x - n) % n == x % n
  {
    assert x - n == n * (x / n - 1) + x % n;
    DivUnique(x - n, n, x / n - 1, x % n);
  }
}
