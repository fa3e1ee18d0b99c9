/** Facts about rounding division on natural numbers. */
module FloorArithmetic {

  lemma MulMonotone(a: int, b: int, c: int)
    requires 0 <= c && a <= b
    ensures a * c <= b * c
  {
  }

  /** x / d is the largest q with q * d <= x. */
  lemma DivAtLeast(x: int, d: int, q: int)
    requires 0 < d && q * d <= x
    ensures q <= x / d
  {
    assert x / d * d + x % d == x;
    if x / d <= q - 1 {
      MulMonotone(x / d, q - 1, d);
    }
  }

  lemma DivBelow(x: int, d: int, q: int)
    requires 0 < d && x < q * d
    ensures x / d < q
  {
    assert x / d * d + x % d == x;
    if q <= x / d {
      MulMonotone(q, x / d, d);
    }
  }

  lemma DivMonotone(x: int, y: int, d: int)
    requires 0 < d && x <= y
    ensures x / d <= y / d
  {
    DivAtLeast(y, d, x / d);
  }

  /** Rounding twice loses at most one unit against rounding the sum. */
  lemma DivSum(x: int, y: int, d: int)
    requires 0 < d
    ensures x / d + y / d <= (x + y) / d <= x / d + y / d + 1
  {
    assert x / d * d + x % d == x;
    assert y / d * d + y % d == y;
    DivAtLeast(x + y, d, x / d + y / d);
    DivBelow(x + y, d, x / d + y / d + 2);
  }

  /** Adding a whole number of units commutes with rounding. */
  lemma DivShift(x: int, n: int, d: int)
    requires 0 < d
    ensures (x + n * d) / d == x / d + n
  {
    assert x / d * d + x % d == x;
    DivAtLeast(x + n * d, d, x / d + n);
    DivBelow(x + n * d, d, x / d + n + 1);
  }
}
